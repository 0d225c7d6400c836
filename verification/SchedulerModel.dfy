/** The launch/receive loop of the scheduler as a transition system: the
    ledgers, admission, weighted choice, and what holds after every run. */
module SchedulerModel {
  import opened Jobs
  import opened Options
  import opened Ordering

  datatype Quota = Quota(cpu: int, memory: int, concurrent: int)
  datatype JobClass = JobClass(weight: int, maxConcurrent: int)
  datatype Usage = Usage(resources: Resources, concurrent: int)
  datatype Phase = Pending | Running | Done

  /** `sampled` says whether a host-pressure sampler is configured. */
  datatype Config = Config(capacity: Resources, maxConcurrent: int, maxQueued: int,
                           classes: map<string, JobClass>, perTask: Quota, perRuntime: Quota,
                           sampled: bool)

  function WithDefaults(quota: Quota, config: Config): Quota
  {
    Quota(if quota.cpu == 0 then config.capacity.cpu else quota.cpu,
          if quota.memory == 0 then config.capacity.memory else quota.memory,
          if quota.concurrent == 0 then config.maxConcurrent else quota.concurrent)
  }

  /** A part of a quota that is given stays; one left out is the machine's. */
  predicate Fills(filled: Quota, given: Quota, config: Config)
  {
    && filled.cpu in {given.cpu, config.capacity.cpu} && (given.cpu != 0 ==> filled.cpu == given.cpu)
    && filled.memory in {given.memory, config.capacity.memory} && (given.memory != 0 ==> filled.memory == given.memory)
    && filled.concurrent in {given.concurrent, config.maxConcurrent}
    && (given.concurrent != 0 ==> filled.concurrent == given.concurrent)
    && (config.capacity.cpu > 0 ==> filled.cpu != 0) && (config.capacity.memory > 0 ==> filled.memory != 0)
    && (config.maxConcurrent > 0 ==> filled.concurrent != 0)
  }

  ghost predicate ValidConfig(config: Config)
  {
    && config.capacity.cpu > 0 && config.capacity.memory > 0
    && config.maxConcurrent > 0 && config.maxQueued > 0
    && (forall name | name in config.classes ::
          name != "" && config.classes[name].weight > 0 && config.classes[name].maxConcurrent >= 0)
  }

  /** Quotas left out mean "as much as the machine has". */
  function New(config: Config): (result: Option<Config>)
    ensures result.Some? <==> ValidConfig(config)
    ensures result.Some? ==> result.value.(perTask := config.perTask, perRuntime := config.perRuntime) == config
    ensures result.Some? ==>
      Fills(result.value.perTask, config.perTask, config) && Fills(result.value.perRuntime, config.perRuntime, config)
    ensures result.Some? && config.perTask == Quota(0, 0, 0) ==>
      forall job: Job | FitsCapacity(result.value, job) :: FitsQuota(result.value.perTask, job)
    ensures result.Some? && config.perRuntime == Quota(0, 0, 0) ==>
      forall job: Job | FitsCapacity(result.value, job) :: FitsQuota(result.value.perRuntime, job)
  {
    if config.capacity.cpu <= 0 || config.capacity.memory <= 0
       || config.maxConcurrent <= 0 || config.maxQueued <= 0 then None
    else if exists name | name in config.classes ::
              name == "" || config.classes[name].weight <= 0 || config.classes[name].maxConcurrent < 0 then None
    else Some(config.(perTask := WithDefaults(config.perTask, config),
                      perRuntime := WithDefaults(config.perRuntime, config)))
  }

  function ClassOf(config: Config, name: string): (class_: JobClass)
  {
    if name in config.classes then config.classes[name] else JobClass(1, 0)
  }

  predicate FitsCapacity(config: Config, job: Job)
  {
    job.resources.cpu <= config.capacity.cpu && job.resources.memory <= config.capacity.memory
  }

  predicate FitsQuota(quota: Quota, job: Job)
  {
    job.resources.cpu <= quota.cpu && job.resources.memory <= quota.memory && 1 <= quota.concurrent
  }

  /** The job could run on an otherwise idle machine. */
  predicate Fits(config: Config, job: Job)
  {
    FitsCapacity(config, job) && FitsQuota(config.perTask, job) && FitsQuota(config.perRuntime, job)
  }

  // ---------------------------------------------------------------- ledgers

  function AddResources(left: Resources, right: Resources): Resources
  {
    Resources(left.cpu + right.cpu, left.memory + right.memory)
  }

  function SubtractResources(left: Resources, right: Resources): Resources
  {
    Resources(left.cpu - right.cpu, left.memory - right.memory)
  }

  function AddUsage(current: Usage, resources: Resources): Usage
  {
    Usage(AddResources(current.resources, resources), current.concurrent + 1)
  }

  function SubtractUsage(current: Usage, resources: Resources): Usage
  {
    Usage(SubtractResources(current.resources, resources), current.concurrent - 1)
  }

  const NO_USAGE := Usage(Resources(0, 0), 0)

  /** Reading a missing key yields the zero value. */
  function UsageOf(ledger: map<string, Usage>, key: string): Usage
  {
    if key in ledger then ledger[key] else NO_USAGE
  }

  function CountOf(ledger: map<string, int>, key: string): int
  {
    if key in ledger then ledger[key] else 0
  }

  /** The variables of the loop in Run. */
  datatype Sched = Sched(state: map<string, Phase>, used: Resources,
                         taskUsage: map<string, Usage>, runtimeUsage: map<string, Usage>,
                         classRunning: map<string, int>, classServed: map<string, int>,
                         active: int, completed: int)

  function Start(jobs: seq<Job>): Sched
  {
    Sched(map job | job in jobs :: job.id := Pending, Resources(0, 0), map[], map[], map[], map[], 0, 0)
  }

  function Launched(s: Sched, job: Job): Sched
  {
    Sched(s.state[job.id := Running],
          AddResources(s.used, job.resources),
          s.taskUsage[job.taskID := AddUsage(UsageOf(s.taskUsage, job.taskID), job.resources)],
          s.runtimeUsage[job.runtimeID := AddUsage(UsageOf(s.runtimeUsage, job.runtimeID), job.resources)],
          s.classRunning[job.class_ := CountOf(s.classRunning, job.class_) + 1],
          s.classServed[job.class_ := CountOf(s.classServed, job.class_) + 1],
          s.active + 1, s.completed)
  }

  function Received(s: Sched, job: Job): Sched
  {
    Sched(s.state[job.id := Done],
          SubtractResources(s.used, job.resources),
          s.taskUsage[job.taskID := SubtractUsage(UsageOf(s.taskUsage, job.taskID), job.resources)],
          s.runtimeUsage[job.runtimeID := SubtractUsage(UsageOf(s.runtimeUsage, job.runtimeID), job.resources)],
          s.classRunning[job.class_ := CountOf(s.classRunning, job.class_) - 1],
          s.classServed,
          s.active - 1, s.completed + 1)
  }

  // -------------------------------------------------------------- admission

  predicate Finished(state: map<string, Phase>, id: string)
  {
    id in state && state[id] == Done
  }

  predicate Ready(state: map<string, Phase>, job: Job)
  {
    job.id in state && state[job.id] == Pending && forall d | d in job.dependsOn :: Finished(state, d)
  }

  predicate WithinQuota(current: Usage, requested: Resources, quota: Quota)
  {
    && current.resources.cpu + requested.cpu <= quota.cpu
    && current.resources.memory + requested.memory <= quota.memory
    && current.concurrent + 1 <= quota.concurrent
  }

  predicate Admissible(config: Config, s: Sched, job: Job)
  {
    var limit := ClassOf(config, job.class_).maxConcurrent;
    && !(limit > 0 && CountOf(s.classRunning, job.class_) >= limit)
    && config.maxConcurrent > 0
    && s.used.cpu + job.resources.cpu <= config.capacity.cpu
    && s.used.memory + job.resources.memory <= config.capacity.memory
    && WithinQuota(UsageOf(s.taskUsage, job.taskID), job.resources, config.perTask)
    && WithinQuota(UsageOf(s.runtimeUsage, job.runtimeID), job.resources, config.perRuntime)
  }

  /** `denied` are the ids the pressure sampler turns away in this choice. */
  predicate Candidate(config: Config, jobs: seq<Job>, s: Sched, denied: set<string>, job: Job)
  {
    job in jobs && Ready(s.state, job) && Admissible(config, s, job) && job.id !in denied
  }

  function Score(config: Config, served: map<string, int>, name: string): real
  {
    var weight := ClassOf(config, name).weight;
    if weight == 0 then 0.0 else CountOf(served, name) as real / weight as real
  }

  /** The order that chooseReady sorts by. */
  predicate Before(config: Config, served: map<string, int>, a: Job, b: Job)
  {
    var left, right := Score(config, served, a.class_), Score(config, served, b.class_);
    left < right || (left == right && Less(a.id, b.id))
  }

  ghost predicate Chosen(config: Config, jobs: seq<Job>, s: Sched, denied: set<string>, job: Job)
  {
    && Candidate(config, jobs, s, denied, job)
    && (forall other | Candidate(config, jobs, s, denied, other) && other.id != job.id ::
      Before(config, s.classServed, job, other))
  }

  /** No further job can be launched now. */
  ghost predicate Saturated(config: Config, jobs: seq<Job>, s: Sched, denied: set<string>)
  {
    s.active >= config.maxConcurrent || forall job | job in jobs :: !Candidate(config, jobs, s, denied, job)
  }

  // ------------------------------------------------------------------- runs

  datatype Event =
    | Launch(job: Job, denied: set<string>)
    | Receive(job: Job, denied: set<string>, failed: bool)

  ghost predicate Enabled(config: Config, jobs: seq<Job>, s: Sched, e: Event)
  {
    && (!config.sampled ==> e.denied == {})
    && match e
       case Launch(job, denied) =>
         s.active < config.maxConcurrent && Chosen(config, jobs, s, denied, job)
       case Receive(job, denied, _) =>
         && job in jobs && job.id in s.state && s.state[job.id] == Running
         && Saturated(config, jobs, s, denied)
  }

  function Apply(s: Sched, e: Event): Sched
  {
    match e
    case Launch(job, _) => Launched(s, job)
    case Receive(job, _, _) => Received(s, job)
  }

  function After(jobs: seq<Job>, log: seq<Event>): Sched
  {
    if log == [] then Start(jobs) else Apply(After(jobs, log[..|log| - 1]), log[|log| - 1])
  }

  /** `log` is a run of the scheduler's loop from its start. */
  ghost predicate ValidRun(config: Config, jobs: seq<Job>, log: seq<Event>)
  {
    log == [] || (
      && ValidRun(config, jobs, log[..|log| - 1])
      && Enabled(config, jobs, After(jobs, log[..|log| - 1]), log[|log| - 1]))
  }

  ghost predicate Workload(config: Config, jobs: seq<Job>)
  {
    ValidConfig(config) && AllValid(jobs) && UniqueIDs(jobs)
  }

  lemma {:induction false} RunPrefix(config: Config, jobs: seq<Job>, log: seq<Event>, n: nat)
    requires ValidRun(config, jobs, log) && n <= |log|
    ensures ValidRun(config, jobs, log[..n])
  {
    if n == |log| {
      assert log[..n] == log;
    } else {
      RunPrefix(config, jobs, log[..|log| - 1], n);
      assert log[..|log| - 1][..n] == log[..n];
    }
  }

  // ------------------------------------------------- what the ledgers record

  datatype Scope = Everything | OfTask(name: string) | OfRuntime(name: string) | OfClass(name: string)

  predicate Within(job: Job, scope: Scope)
  {
    match scope
    case Everything => true
    case OfTask(name) => job.taskID == name
    case OfRuntime(name) => job.runtimeID == name
    case OfClass(name) => job.class_ == name
  }

  datatype Measure = Cpu | Memory | Count

  function Amount(job: Job, measure: Measure): int
  {
    match measure
    case Cpu => job.resources.cpu
    case Memory => job.resources.memory
    case Count => 1
  }

  predicate InPhase(state: map<string, Phase>, job: Job, phases: set<Phase>)
  {
    job.id in state && state[job.id] in phases
  }

  function Share(job: Job, state: map<string, Phase>, scope: Scope, phases: set<Phase>, measure: Measure): int
  {
    if InPhase(state, job, phases) && Within(job, scope) then Amount(job, measure) else 0
  }

  /** CPU, memory or number of those of the first `n` jobs that belong to the
      scope and are in one of the phases. */
  function Total(jobs: seq<Job>, n: nat, state: map<string, Phase>, scope: Scope, phases: set<Phase>,
                 measure: Measure): int
    requires n <= |jobs|
    decreases n
  {
    if n == 0 then 0
    else Total(jobs, n - 1, state, scope, phases, measure) + Share(jobs[n - 1], state, scope, phases, measure)
  }

  ghost predicate Sums(usage: Usage, jobs: seq<Job>, state: map<string, Phase>, scope: Scope)
  {
    && usage.resources.cpu == Total(jobs, |jobs|, state, scope, {Running}, Cpu)
    && usage.resources.memory == Total(jobs, |jobs|, state, scope, {Running}, Memory)
    && usage.concurrent == Total(jobs, |jobs|, state, scope, {Running}, Count)
  }

  /** Every ledger is exactly the sum or count over the jobs it speaks about. */
  ghost predicate Conserved(jobs: seq<Job>, s: Sched)
  {
    && (forall job | job in jobs :: job.id in s.state)
    && Sums(Usage(s.used, s.active), jobs, s.state, Everything)
    && s.completed == Total(jobs, |jobs|, s.state, Everything, {Done}, Count)
    && (forall t :: Sums(UsageOf(s.taskUsage, t), jobs, s.state, OfTask(t)))
    && (forall r :: Sums(UsageOf(s.runtimeUsage, r), jobs, s.state, OfRuntime(r)))
    && (forall c :: CountOf(s.classRunning, c) == Total(jobs, |jobs|, s.state, OfClass(c), {Running}, Count))
    && (forall c :: CountOf(s.classServed, c) == Total(jobs, |jobs|, s.state, OfClass(c), {Running, Done}, Count))
  }

  ghost predicate RespectsQuota(usage: Usage, quota: Quota)
  {
    (usage.concurrent == 0 && usage.resources == Resources(0, 0)) ||
    (usage.resources.cpu <= quota.cpu && usage.resources.memory <= quota.memory && usage.concurrent <= quota.concurrent)
  }

  ghost predicate WithinLimits(config: Config, s: Sched)
  {
    && 0 <= s.active <= config.maxConcurrent
    && 0 <= s.used.cpu <= config.capacity.cpu && 0 <= s.used.memory <= config.capacity.memory
    && (forall t :: RespectsQuota(UsageOf(s.taskUsage, t), config.perTask))
    && (forall r :: RespectsQuota(UsageOf(s.runtimeUsage, r), config.perRuntime))
    && (forall c :: var limit := ClassOf(config, c).maxConcurrent;
          limit > 0 ==> CountOf(s.classRunning, c) <= limit)
  }

  lemma {:induction false} TotalFrame(jobs: seq<Job>, n: nat, state: map<string, Phase>, id: string, next: Phase,
                                      scope: Scope, phases: set<Phase>, measure: Measure)
    requires n <= |jobs| && forall i | 0 <= i < n :: jobs[i].id != id
    ensures Total(jobs, n, state[id := next], scope, phases, measure) == Total(jobs, n, state, scope, phases, measure)
    decreases n
  {
    if n > 0 {
      TotalFrame(jobs, n - 1, state, id, next, scope, phases, measure);
    }
  }

  /** Moving one job to another phase changes a total by that job's share alone. */
  lemma {:induction false} TotalUpdate(jobs: seq<Job>, n: nat, state: map<string, Phase>, k: nat, next: Phase,
                                       scope: Scope, phases: set<Phase>, measure: Measure)
    requires UniqueIDs(jobs) && k < n <= |jobs|
    ensures var moved := state[jobs[k].id := next];
      Total(jobs, n, moved, scope, phases, measure) - Total(jobs, n, state, scope, phases, measure)
      == Share(jobs[k], moved, scope, phases, measure) - Share(jobs[k], state, scope, phases, measure)
    decreases n
  {
    if k == n - 1 {
      TotalFrame(jobs, n - 1, state, jobs[k].id, next, scope, phases, measure);
    } else {
      TotalUpdate(jobs, n - 1, state, k, next, scope, phases, measure);
    }
  }

  /** Totals are not negative, a total over no job is zero, and the number of
      jobs bounds every count. */
  lemma {:induction false} TotalBounds(jobs: seq<Job>, n: nat, state: map<string, Phase>, scope: Scope,
                                       phases: set<Phase>, measure: Measure)
    requires AllValid(jobs) && n <= |jobs|
    ensures 0 <= Total(jobs, n, state, scope, phases, measure)
    ensures Total(jobs, n, state, scope, phases, Count) == 0 ==> Total(jobs, n, state, scope, phases, measure) == 0
    ensures 0 <= Total(jobs, n, state, scope, phases, Count) <= Total(jobs, n, state, Everything, phases, Count) <= n
    decreases n
  {
    if n > 0 {
      assert ValidJob(jobs[n - 1]);
      TotalBounds(jobs, n - 1, state, scope, phases, measure);
    }
  }

  lemma {:induction false} TotalOfNone(jobs: seq<Job>, n: nat, state: map<string, Phase>, scope: Scope,
                                       phases: set<Phase>, measure: Measure)
    requires n <= |jobs| && forall i | 0 <= i < n :: !InPhase(state, jobs[i], phases)
    ensures Total(jobs, n, state, scope, phases, measure) == 0
    decreases n
  {
    if n > 0 {
      TotalOfNone(jobs, n - 1, state, scope, phases, measure);
    }
  }

  /** A count over all jobs is complete just when every job is in one of the
      phases. */
  lemma {:induction false} CountComplete(jobs: seq<Job>, n: nat, state: map<string, Phase>, phases: set<Phase>)
    requires AllValid(jobs) && n <= |jobs|
    ensures Total(jobs, n, state, Everything, phases, Count) == n
       <==> forall i | 0 <= i < n :: InPhase(state, jobs[i], phases)
    decreases n
  {
    if n > 0 {
      CountComplete(jobs, n - 1, state, phases);
      TotalBounds(jobs, n - 1, state, Everything, phases, Count);
    }
  }

  lemma {:induction false} CountMember(jobs: seq<Job>, n: nat, state: map<string, Phase>, scope: Scope,
                                       phases: set<Phase>, k: nat)
    requires AllValid(jobs) && k < n <= |jobs|
    requires InPhase(state, jobs[k], phases) && Within(jobs[k], scope)
    ensures Total(jobs, n, state, scope, phases, Count) > 0
    decreases n
  {
    TotalBounds(jobs, n - 1, state, scope, phases, Count);
    if k < n - 1 {
      CountMember(jobs, n - 1, state, scope, phases, k);
    }
  }

  lemma {:induction false} StartConserved(jobs: seq<Job>)
    ensures Conserved(jobs, Start(jobs))
  {
    var s := Start(jobs);
    forall scope, phases: set<Phase>, measure | Pending !in phases
      ensures Total(jobs, |jobs|, s.state, scope, phases, measure) == 0
    {
      TotalOfNone(jobs, |jobs|, s.state, scope, phases, measure);
    }
  }

  /** The event moves a job that is where the event expects it. */
  ghost predicate Moves(jobs: seq<Job>, s: Sched, e: Event)
  {
    && e.job in jobs && e.job.id in s.state
    && s.state[e.job.id] == if e.Launch? then Pending else Running
  }

  function Signed(e: Event, scope: Scope, measure: Measure): int
  {
    if !Within(e.job, scope) then 0 else if e.Launch? then Amount(e.job, measure) else -Amount(e.job, measure)
  }

  lemma {:induction false} StepTotal(jobs: seq<Job>, s: Sched, e: Event, scope: Scope, measure: Measure)
    requires UniqueIDs(jobs) && Moves(jobs, s, e)
    ensures Total(jobs, |jobs|, Apply(s, e).state, scope, {Running}, measure)
         == Total(jobs, |jobs|, s.state, scope, {Running}, measure) + Signed(e, scope, measure)
  {
    var k :| 0 <= k < |jobs| && jobs[k] == e.job;
    TotalUpdate(jobs, |jobs|, s.state, k, if e.Launch? then Running else Done, scope, {Running}, measure);
  }

  lemma {:induction false} StepCounts(jobs: seq<Job>, s: Sched, e: Event, scope: Scope)
    requires UniqueIDs(jobs) && Moves(jobs, s, e)
    ensures Total(jobs, |jobs|, Apply(s, e).state, scope, {Running, Done}, Count)
         == Total(jobs, |jobs|, s.state, scope, {Running, Done}, Count) +
           (if e.Launch? && Within(e.job, scope) then 1 else 0)
    ensures Total(jobs, |jobs|, Apply(s, e).state, scope, {Done}, Count)
         == Total(jobs, |jobs|, s.state, scope, {Done}, Count) + (if e.Receive? && Within(e.job, scope) then 1 else 0)
  {
    var k :| 0 <= k < |jobs| && jobs[k] == e.job;
    var next := if e.Launch? then Running else Done;
    TotalUpdate(jobs, |jobs|, s.state, k, next, scope, {Running, Done}, Count);
    TotalUpdate(jobs, |jobs|, s.state, k, next, scope, {Done}, Count);
  }

  lemma {:induction false} StepSums(jobs: seq<Job>, s: Sched, e: Event, before: Usage, scope: Scope)
    requires UniqueIDs(jobs) && Moves(jobs, s, e) && Sums(before, jobs, s.state, scope)
    ensures Sums(if !Within(e.job, scope) then before
                 else if e.Launch? then AddUsage(before, e.job.resources) else SubtractUsage(before, e.job.resources),
                 jobs, Apply(s, e).state, scope)
  {
    StepTotal(jobs, s, e, scope, Cpu);
    StepTotal(jobs, s, e, scope, Memory);
    StepTotal(jobs, s, e, scope, Count);
  }

  lemma {:induction false} StepConserved(jobs: seq<Job>, s: Sched, e: Event)
    requires UniqueIDs(jobs) && Conserved(jobs, s) && Moves(jobs, s, e)
    ensures Conserved(jobs, Apply(s, e))
  {
    hide Total;
    var after := Apply(s, e);
    StepSums(jobs, s, e, Usage(s.used, s.active), Everything);
    StepCounts(jobs, s, e, Everything);
    forall t ensures Sums(UsageOf(after.taskUsage, t), jobs, after.state, OfTask(t)) {
      StepSums(jobs, s, e, UsageOf(s.taskUsage, t), OfTask(t));
    }
    forall r ensures Sums(UsageOf(after.runtimeUsage, r), jobs, after.state, OfRuntime(r)) {
      StepSums(jobs, s, e, UsageOf(s.runtimeUsage, r), OfRuntime(r));
    }
    forall c ensures CountOf(after.classRunning, c) == Total(jobs, |jobs|, after.state, OfClass(c), {Running}, Count) {
      StepTotal(jobs, s, e, OfClass(c), Count);
    }
    forall c
      ensures CountOf(after.classServed, c) == Total(jobs, |jobs|, after.state, OfClass(c), {Running, Done}, Count)
    {
      StepCounts(jobs, s, e, OfClass(c));
    }
  }

  /** Main result: at every point of every run all ledgers are exact and
      every limit holds. */
  lemma {:induction false} LedgersExactAndWithinLimits(config: Config, jobs: seq<Job>, log: seq<Event>)
    requires Workload(config, jobs) && ValidRun(config, jobs, log)
    ensures Conserved(jobs, After(jobs, log)) && WithinLimits(config, After(jobs, log))
  {
    if log == [] {
      StartConserved(jobs);
    } else {
      var s, e := After(jobs, log[..|log| - 1]), log[|log| - 1];
      LedgersExactAndWithinLimits(config, jobs, log[..|log| - 1]);
      StepConserved(jobs, s, e);
      StepWithinLimits(config, jobs, s, e);
    }
  }

  lemma {:induction false} StepWithinLimits(config: Config, jobs: seq<Job>, s: Sched, e: Event)
    requires Workload(config, jobs) && Conserved(jobs, s) && WithinLimits(config, s)
    requires Enabled(config, jobs, s, e) && Conserved(jobs, Apply(s, e))
    ensures WithinLimits(config, Apply(s, e))
  {
    var after := Apply(s, e);
    assert ValidJob(e.job) by {
      var i :| 0 <= i < |jobs| && jobs[i] == e.job;
    }
    forall scope, measure
      ensures 0 <= Total(jobs, |jobs|, after.state, scope, {Running}, measure)
      ensures Total(jobs, |jobs|, after.state, scope, {Running}, Count) == 0
          ==> Total(jobs, |jobs|, after.state, scope, {Running}, measure) == 0
    {
      TotalBounds(jobs, |jobs|, after.state, scope, {Running}, measure);
    }
  }
}
