/** The autonomous loop's states and calls (internal/loop/loop.go): what holds
    of every persisted state, and what a completed run has behind it. */
module LoopModel {
  import opened EventStore

  datatype Phase = Inspect | Hypothesis | Planning | Parallel | Patching | TargetedTest | DiagnoseRetry
                 | FullVerify | Checkpoint | Completed | Failed | HumanCheckpoint

  datatype Binding = Binding(repositoryID: string, candidateSnapshot: string, environmentID: string,
                             policyVersion: string)
  datatype Action = Action(id: string, kind: string, fingerprint: string)
  datatype Plan = Plan(binding: Binding, commands: seq<Action>, patch: Action, targetedTest: Action, fullVerify: Action,
                       destructive: bool, ambiguous: bool)
  datatype Failure = Failure(phase: Phase, action: Action, class_: string, diagnostic: string)
  datatype State = State(phase: Phase, binding: Binding, hypothesis: string, plan: Plan, lastFailure: Failure,
                         retryCount: nat, failedActions: seq<string>, checkpointID: string)

  /** What an event of the run carries. */
  datatype Payload = LoopState(state: State) | Other(text: string)

  type Log = seq<Event<Payload>>

  const NO_ACTION := Action("", "", "")
  const NO_BINDING := Binding("", "", "", "")
  const NO_PLAN := Plan(NO_BINDING, [], NO_ACTION, NO_ACTION, NO_ACTION, false, false)
  const NO_FAILURE := Failure(Inspect, NO_ACTION, "", "")

  function Initial(binding: Binding): State
  {
    State(Inspect, binding, "", NO_PLAN, NO_FAILURE, 0, [], "")
  }

  predicate ValidBinding(b: Binding)
  {
    b.repositoryID != "" && b.candidateSnapshot != "" && b.environmentID != "" && b.policyVersion != ""
  }

  predicate ValidAction(a: Action)
  {
    && 0 < |a.id| <= 128 && 0 < |a.kind| <= 128 && 0 < |a.fingerprint| <= 128
    && forall c | c in a.id + a.kind + a.fingerprint :: c != '\0' && c != '\r' && c != '\n'
  }

  function Actions(plan: Plan): seq<Action>
  {
    plan.commands + [plan.patch] + [plan.targetedTest] + [plan.fullVerify]
  }

  predicate ValidPlan(plan: Plan, binding: Binding)
  {
    && plan.binding == binding && 0 < |plan.commands| <= 64
    && forall i | 0 <= i < |Actions(plan)| :: ValidAction(Actions(plan)[i])
  }

  predicate RepeatedPlan(plan: Plan, failed: seq<string>)
  {
    exists i :: 0 <= i < |Actions(plan)| && Actions(plan)[i].fingerprint in failed
  }

  predicate Terminal(phase: Phase)
  {
    phase == Completed || phase == Failed || phase == HumanCheckpoint
  }

  // -------------------------------------------------------------- replayed state

  ghost predicate AllBound(log: Log, binding: Binding)
  {
    forall i | 0 <= i < |log| && log[i].payload.LoopState? :: log[i].payload.state.binding == binding
  }

  /** The last loop state of the log, or the initial one. */
  function LastState(log: Log, binding: Binding): State
  {
    if log == [] then Initial(binding)
    else if log[|log| - 1].payload.LoopState? then log[|log| - 1].payload.state
    else LastState(log[..|log| - 1], binding)
  }

  lemma {:induction false} LastStateAppend(log: Log, e: Event<Payload>, binding: Binding)
    ensures LastState(log + [e], binding) == if e.payload.LoopState? then e.payload.state else LastState(log, binding)
  {
    assert (log + [e])[..|log|] == log;
  }

  /** Once a state is stored, what counts as initial no longer matters. */
  lemma {:induction false} StoredState(log: Log, a: Binding, b: Binding)
    requires LastState(log, a).phase != Inspect
    ensures LastState(log, b) == LastState(log, a)
  {
    if log != [] && !log[|log| - 1].payload.LoopState? {
      StoredState(log[..|log| - 1], a, b);
    }
  }

  /** A state past the first phase is one that the log holds. */
  lemma {:induction false} LastStateStands(log: Log, binding: Binding) returns (i: nat)
    requires LastState(log, binding).phase != Inspect
    ensures i < |log| && log[i].payload == LoopState(LastState(log, binding))
  {
    if log[|log| - 1].payload.LoopState? {
      i := |log| - 1;
    } else {
      i := LastStateStands(log[..|log| - 1], binding);
    }
  }

  // ------------------------------------------------------------------- progress

  predicate Distinct(s: seq<string>)
  {
    forall i, j | 0 <= i < j < |s| :: s[i] != s[j]
  }

  predicate HasPlan(phase: Phase)
  {
    phase == Parallel || phase == Patching || phase == TargetedTest || phase == FullVerify || phase == Checkpoint
  }

  /** The plan in use is valid, and none of its actions has failed before. */
  ghost predicate FreshPlan(s: State)
  {
    && 0 < |s.plan.commands| && !RepeatedPlan(s.plan, s.failedActions)
    && forall i | 0 <= i < |Actions(s.plan)| :: Actions(s.plan)[i].fingerprint != ""
  }

  /** What every state of a run that is not over satisfies: each retry has one
      failed action behind it, and all of them differ. */
  ghost predicate Bounded(s: State, maxRetries: nat)
  {
    !Terminal(s.phase) ==>
      && s.retryCount <= maxRetries && Distinct(s.failedActions)
      && |s.failedActions| == s.retryCount + (if s.phase == DiagnoseRetry then 1 else 0)
      && (HasPlan(s.phase) ==> FreshPlan(s))
      && (s.phase == Inspect || s.phase == Hypothesis || s.phase == Planning ==> s.retryCount == 0)
  }

  /** How many more times the loop can come round, at most. */
  function Remaining(s: State, maxRetries: nat): int
  {
    var retries := 5 * (maxRetries - s.retryCount);
    match s.phase
    case Inspect => retries + 9
    case Hypothesis => retries + 8
    case Planning => retries + 7
    case Parallel => retries + 6
    case Patching => retries + 5
    case TargetedTest => retries + 4
    case FullVerify => retries + 3
    case DiagnoseRetry => retries + 2
    case Checkpoint => retries + 2
    case Completed => 1
    case Failed => 1
    case HumanCheckpoint => 1
  }

  /** The whole budget of a run: at least one turn is left, and never more than
      five for each retry and nine besides. */
  lemma {:induction false} RemainingBounds(s: State, maxRetries: nat)
    requires Bounded(s, maxRetries)
    ensures 1 <= Remaining(s, maxRetries) <= 5 * maxRetries + 9
  {
  }

  // ---------------------------------------------------------------- transitions

  /** A plan that the loop takes from the model. */
  predicate Acceptable(plan: Plan, binding: Binding, failed: seq<string>)
  {
    ValidPlan(plan, binding) && !plan.destructive && !plan.ambiguous && !RepeatedPlan(plan, failed)
  }

  predicate WellMade(action: Action)
  {
    && action.id != "" && action.kind != "" && action.fingerprint != ""
    && |action.id| <= 128 && |action.kind| <= 128 && |action.fingerprint| <= 128
    && forall c | c in ['\0', '\r', '\n'] :: c !in action.id && c !in action.kind && c !in action.fingerprint
  }

  /** What the loop takes from the model: a plan on the binding with one to 64
      commands that is neither destructive nor ambiguous, and each of whose actions
      is well made and has not failed before. */
  lemma {:induction false} AcceptableExactlyWhen(plan: Plan, binding: Binding, failed: seq<string>)
    ensures Acceptable(plan, binding, failed) <==>
      && plan.binding == binding && 1 <= |plan.commands| <= 64 && !plan.destructive && !plan.ambiguous
      && (forall a | a in plan.commands || a in {plan.patch, plan.targetedTest, plan.fullVerify} ::
            WellMade(a) && a.fingerprint !in failed)
  {
    forall a ensures ValidAction(a) <==> WellMade(a) {
      ActionExactlyWhen(a);
    }
    hide ValidAction, WellMade;
    var actions, n := Actions(plan), |plan.commands|;
    assert forall i | 0 <= i < n :: actions[i] == plan.commands[i];
    assert actions[n] == plan.patch && actions[n + 1] == plan.targetedTest && actions[n + 2] == plan.fullVerify;
    assert forall a | a in plan.commands || a in {plan.patch, plan.targetedTest, plan.fullVerify} :: a in actions;
  }

  lemma {:induction false} ActionExactlyWhen(a: Action)
    ensures ValidAction(a) <==> WellMade(a)
  {
    var text := a.id + a.kind + a.fingerprint;
    assert forall c :: c in text <==> c in a.id || c in a.kind || c in a.fingerprint;
    assert forall c | c in ['\0', '\r', '\n'] :: c == '\0' || c == '\r' || c == '\n';
    assert '\0' in ['\0', '\r', '\n'] && '\r' in ['\0', '\r', '\n'] && '\n' in ['\0', '\r', '\n'];
  }

  /** The state after a recorded failure of the phase. */
  predicate FailsInto(s: State, t: State)
  {
    && t.lastFailure.phase == s.phase && t.lastFailure.action.fingerprint != ""
    && t.lastFailure.action.fingerprint !in s.failedActions
    && t == s.(lastFailure := t.lastFailure, failedActions := s.failedActions + [t.lastFailure.action.fingerprint],
      phase := DiagnoseRetry)
  }

  /** The states that one turn may go on with from `s`, on a binding; only the
      patch may move to another one. */
  predicate Follows(s: State, t: State, binding: Binding)
  {
    match s.phase
    case Inspect => 0 < |t.hypothesis| <= 4096 && t == s.(hypothesis := t.hypothesis, phase := Hypothesis)
    case Hypothesis => t == s.(phase := Planning)
    case Planning => Acceptable(t.plan, binding, s.failedActions) && t == s.(plan := t.plan, phase := Parallel)
    case DiagnoseRetry => Acceptable(t.plan, binding, s.failedActions)
      && t == s.(plan := t.plan, retryCount := s.retryCount + 1, phase := Parallel)
    case Parallel => t == s.(phase := Patching) || FailsInto(s, t)
    case Patching => FailsInto(s, t) || t == s.(phase := TargetedTest)
      || t == s.(binding := t.binding, plan := s.plan.(binding := t.binding), phase := TargetedTest)
    case TargetedTest => t == s.(phase := FullVerify) || FailsInto(s, t)
    case FullVerify => t == s.(phase := Checkpoint) || FailsInto(s, t)
    case Checkpoint => t == s.(checkpointID := t.checkpointID, phase := Completed)
    case _ => false
  }

  /** Every transition keeps the retry bounds and uses up budget. A retry is only
      taken while there are some left. */
  lemma {:induction false} TransitionUsesBudget(s: State, t: State, binding: Binding, maxRetries: nat)
    requires Bounded(s, maxRetries) && Follows(s, t, binding)
    requires s.phase == DiagnoseRetry ==> s.retryCount < maxRetries
    ensures Bounded(t, maxRetries) && Remaining(t, maxRetries) < Remaining(s, maxRetries)
  {
    if HasPlan(t.phase) && t.phase != Parallel {
      assert forall i | 0 <= i < |Actions(t.plan)| :: Actions(t.plan)[i] == Actions(s.plan)[i];
    }
  }

  // ---------------------------------------------------------------- stored states

  /** The state in which a run is ended for good, or handed to a human. */
  predicate Ends(s: State, t: State)
  {
    !Terminal(s.phase) && t.phase in {Failed, HumanCheckpoint}
      && t == s.(phase := t.phase, lastFailure := t.lastFailure)
  }

  /** What may be stored after `s`. */
  predicate Continues(s: State, t: State)
  {
    Follows(s, t, s.binding) || Ends(s, t)
  }

  /** Every loop state of the log continues the one before it, from a start under
      the given binding. */
  ghost predicate Trace(log: Log, first: Binding)
  {
    log == [] || (
      && Trace(log[..|log| - 1], first)
      && (log[|log| - 1].payload.LoopState? ==>
            Continues(LastState(log[..|log| - 1], first), log[|log| - 1].payload.state)))
  }

  lemma {:induction false} TraceAppend(log: Log, e: Event<Payload>, first: Binding)
    requires Trace(log, first) && (e.payload.LoopState? ==> Continues(LastState(log, first), e.payload.state))
    ensures Trace(log + [e], first)
  {
    assert (log + [e])[..|log|] == log;
  }

  lemma {:induction false} BoundPrefix(log: Log, n: nat, binding: Binding)
    requires n <= |log| && AllBound(log, binding)
    ensures AllBound(log[..n], binding)
  {
    forall i | 0 <= i < n && log[..n][i].payload.LoopState? ensures log[..n][i].payload.state.binding == binding {
      assert log[..n][i] == log[i];
    }
  }

  /** A log that loads under a binding also started under it. */
  lemma {:induction false} TraceUnder(log: Log, first: Binding, binding: Binding)
    requires Trace(log, first) && AllBound(log, binding)
    ensures Trace(log, binding)
    decreases |log|
  {
    if log != [] {
      var n := |log| - 1;
      BoundPrefix(log, n, binding);
      TraceUnder(log[..n], first, binding);
      if log[n].payload.LoopState? {
        if LastState(log[..n], first).phase == Inspect {
          NothingStored(log[..n], first, binding);
        } else {
          StoredState(log[..n], first, binding);
        }
      }
    }
  }

  /** No stored state is in the first phase, so a log that ends there has none. */
  lemma {:induction false} NothingStored(log: Log, first: Binding, binding: Binding)
    requires Trace(log, first) && LastState(log, first).phase == Inspect
    ensures LastState(log, first) == Initial(first) && LastState(log, binding) == Initial(binding)
  {
    if log != [] && !log[|log| - 1].payload.LoopState? {
      NothingStored(log[..|log| - 1], first, binding);
    }
  }

  /** No binding loads the log. */
  ghost predicate LoadsNoMore(log: Log)
  {
    forall b :: !AllBound(log, b)
  }

  /** The state at position `i` is stored under another binding than the one
      before it. */
  ghost predicate MovesAt(log: Log, first: Binding, i: nat)
    requires i < |log|
  {
    log[i].payload.LoopState? && log[i].payload.state.binding != LastState(log[..i], first).binding
  }

  /** A log loads under the binding that it started with exactly as long as no
      state has been stored under another one; once one has, no binding loads it,
      however it grows. */
  lemma {:induction false} RefreshEndsResume(log: Log, first: Binding)
    requires Trace(log, first)
    ensures AllBound(log, first) <==> forall i | 0 <= i < |log| :: !MovesAt(log, first, i)
    ensures !AllBound(log, first) ==> forall more: Log :: LoadsNoMore(log + more)
    decreases |log|
  {
    if log != [] {
      var n := |log| - 1;
      var before, last := log[..n], log[n];
      RefreshEndsResume(before, first);
      assert log == before + [last];
      assert forall i | 0 <= i < n :: MovesAt(before, first, i) <==> MovesAt(log, first, i) by {
        assert forall i | 0 <= i < n :: before[i] == log[i] && before[..i] == log[..i];
      }
      hide Trace, Continues, LoadsNoMore;
      BoundOfLonger(before, last, first);
      if AllBound(before, first) {
        BoundLastState(before, first);
        if MovesAt(log, first, n) {
          MoveEndsResume(before, last, first);
        }
      } else {
        forall more: Log ensures LoadsNoMore(log + more) {
          assert log + more == before + ([last] + more);
        }
      }
    }
  }

  lemma {:induction false} BoundOfLonger(log: Log, e: Event<Payload>, binding: Binding)
    ensures AllBound(log + [e], binding)
       <==> AllBound(log, binding) && (e.payload.LoopState? ==> e.payload.state.binding == binding)
  {
    var longer := log + [e];
    assert longer[|log|] == e && forall i | 0 <= i < |log| :: longer[i] == log[i];
  }

  lemma {:induction false} MoveEndsResume(log: Log, e: Event<Payload>, first: Binding)
    requires e.payload.LoopState? && Continues(LastState(log, first), e.payload.state)
    requires e.payload.state.binding != LastState(log, first).binding
    ensures forall more: Log :: LoadsNoMore(log + [e] + more)
  {
    hide LoadsNoMore;
    var i := LastStateStands(log, first);
    var longer := log + [e];
    forall more: Log ensures LoadsNoMore(longer + more) {
      TwoBindings(longer, more, i, |log|);
    }
  }

  // ------------------------------------------------------------- being resumed

  predicate MatchesRun(run: Run, b: Binding)
  {
    run.repositoryID == b.repositoryID && run.candidateSnapshot == b.candidateSnapshot
    && run.environmentID == b.environmentID && run.policyVersion == b.policyVersion
  }

  /** The binding that the run table holds for a run. */
  function RowBinding(run: Run): Binding
  {
    Binding(run.repositoryID, run.candidateSnapshot, run.environmentID, run.policyVersion)
  }

  const MAX_EVENTS := 10_000

  /** Both checks that a call makes before it enters the loop: the run's row names
      the binding, and the log loads under it. */
  ghost predicate Resumable(runs: map<string, Run>, id: string, log: Log, b: Binding)
  {
    ValidBinding(b) && id in runs && MatchesRun(runs[id], b) && |log| < MAX_EVENTS && AllBound(log, b)
  }

  /** No binding resumes the run. */
  ghost predicate Lost(runs: map<string, Run>, id: string, log: Log)
  {
    forall b :: !Resumable(runs, id, log, b)
  }

  /** Main result: a run that has stored a state can be resumed, under some
      binding, exactly when its log is not too long and neither its row nor any
      stored state has moved from the binding that it started with; then it is
      that binding. */
  lemma {:induction false} LostExactlyWhen(runs: map<string, Run>, id: string, log: Log, first: Binding, k: nat)
    requires Trace(log, first) && k < |log| && log[k].payload.LoopState?
    ensures !Lost(runs, id, log)
       <==> Resumable(runs, id, log, first)
    ensures Resumable(runs, id, log, first)
       <==> ValidBinding(first) && id in runs && RowBinding(runs[id]) == first && |log| < MAX_EVENTS
            && forall i | 0 <= i < |log| :: !MovesAt(log, first, i)
  {
    RefreshEndsResume(log, first);
    forall b | Resumable(runs, id, log, b) ensures b == first {
      StartsUnder(log, first, b, k);
    }
  }

  lemma {:induction false} StartsUnder(log: Log, first: Binding, b: Binding, k: nat)
    requires Trace(log, first) && AllBound(log, b) && k < |log| && log[k].payload.LoopState?
    ensures b == first
    decreases |log|
  {
    var n := |log| - 1;
    BoundPrefix(log, n, b);
    if k < n {
      StartsUnder(log[..n], first, b, k);
    } else if LastState(log[..n], first).phase != Inspect {
      var i := LastStateStands(log[..n], first);
      StartsUnder(log[..n], first, b, i);
    } else {
      NothingStored(log[..n], first, b);
    }
  }

  /** Once a refreshed binding is in the row, the run is lost, even before a state
      has been stored under it. */
  lemma {:induction false} RebindingLosesRun(runs: map<string, Run>, id: string, log: Log, first: Binding, k: nat,
                                             moved: Binding)
    requires Trace(log, first) && k < |log| && log[k].payload.LoopState? && id in runs
    requires RowBinding(MovedRow(runs[id], moved)) != first
    ensures Lost(runs[id := MovedRow(runs[id], moved)], id, log)
  {
    LostExactlyWhen(runs[id := MovedRow(runs[id], moved)], id, log, first, k);
  }

  /** The row after UpdateRunBinding. */
  function MovedRow(run: Run, moved: Binding): Run
  {
    Rebound(run, moved.candidateSnapshot, moved.environmentID, moved.policyVersion)
  }

  lemma {:induction false} BoundLastState(log: Log, binding: Binding)
    requires AllBound(log, binding)
    ensures LastState(log, binding).binding == binding
  {
    if log != [] && !log[|log| - 1].payload.LoopState? {
      BoundLastState(log[..|log| - 1], binding);
    }
  }

  lemma {:induction false} TwoBindings(log: Log, more: Log, i: nat, j: nat)
    requires i < |log| && j < |log| && log[i].payload.LoopState? && log[j].payload.LoopState?
    requires log[i].payload.state.binding != log[j].payload.state.binding
    ensures LoadsNoMore(log + more)
  {
    assert (log + more)[i] == log[i] && (log + more)[j] == log[j];
  }

  /** The states of a run up to its patch, one for each of its first turns. */
  function SampleState(first: Binding, k: nat): State
    requires k <= 4
  {
    var a := Action("a", "k", "f");
    var phase := if k == 0 then Inspect else if k == 1 then Hypothesis else if k == 2 then Planning
                 else if k == 3 then Parallel else Patching;
    State(phase, first, if k == 0 then "" else "h", if k < 3 then NO_PLAN else Plan(first, [a], a, a, a, false, false),
      NO_FAILURE, 0, [], "")
  }

  lemma {:induction false} SampleContinues(first: Binding, k: nat)
    requires k < 4
    ensures Continues(SampleState(first, k), SampleState(first, k + 1))
    ensures SampleState(first, k + 1).binding == first && SampleState(first, 4).phase == Patching
  {
    var a := Action("a", "k", "f");
    assert Actions(Plan(first, [a], a, a, a, false, false)) == [a, a, a, a];
  }

  lemma {:induction false} SampleLog(first: Binding, k: nat) returns (log: Log)
    requires k <= 4
    ensures |log| == k && Trace(log, first) && AllBound(log, first) && LastState(log, first) == SampleState(first, k)
    ensures k > 0 ==> log[0].payload.LoopState?
  {
    if k == 0 {
      log := [];
      assert SampleState(first, 0) == Initial(first);
    } else {
      var shorter := SampleLog(first, k - 1);
      SampleContinues(first, k - 1);
      hide SampleState, Trace, AllBound, LastState, Continues;
      log := Store(shorter, SampleState(first, k), first);
      assert k > 1 ==> log[0] == log[..k - 1][0];
    }
  }

  /** A run whose patch refreshed the binding, with the next state stored: no
      binding loads its log. */
  lemma {:induction false} RefreshedRunExists() returns (log: Log, first: Binding)
    ensures Trace(log, first) && LastState(log, first).phase == TargetedTest && LoadsNoMore(log)
  {
    first := Binding("r", "old", "e", "p");
    var moved := first.(candidateSnapshot := "new");
    var short := SampleLog(first, 4);
    SampleContinues(first, 3);
    var s := LastState(short, first);
    var t := s.(binding := moved, plan := s.plan.(binding := moved), phase := TargetedTest);
    assert Follows(s, t, s.binding) by {
      hide Trace, LastState;
    }
    log := Store(short, t, first);
    BoundLastState(short, first);
    hide Trace, Follows, LastState;
    assert MovesAt(log, first, |short|);
    RefreshEndsResume(log, first);
    var nothing: Log := [];
    assert log + nothing == log;
  }

  /** The same run, ended between the update of its row and the next state: its
      log still loads, no stored state has moved, and no binding resumes it. */
  lemma {:induction false} ReboundRowExists() returns (runs: map<string, Run>, id: string, log: Log, first: Binding)
    ensures Trace(log, first) && AllBound(log, first) && LastState(log, first).phase == Patching
    ensures forall i | 0 <= i < |log| :: !MovesAt(log, first, i)
    ensures Lost(runs, id, log)
  {
    id, first := "run", Binding("r", "old", "e", "p");
    var before := map[id := Run("r", "old", "e", "p", "running")];
    var moved := first.(candidateSnapshot := "new");
    log := SampleLog(first, 4);
    SampleContinues(first, 3);
    hide SampleState, Trace, LastState, MovesAt, AllBound, Lost;
    RefreshEndsResume(log, first);
    runs := before[id := MovedRow(before[id], moved)];
    RebindingLosesRun(before, id, log, first, 0, moved);
  }

  /** The log with one more state. */
  lemma {:induction false} Store(log: Log, s: State, first: Binding) returns (longer: Log)
    requires Trace(log, first) && Continues(LastState(log, first), s)
    ensures |longer| == |log| + 1 && longer[..|log|] == log && longer[|log|].payload == LoopState(s)
    ensures Trace(longer, first) && LastState(longer, first) == s
    ensures AllBound(longer, first) <==> AllBound(log, first) && s.binding == first
  {
    var e := Event(|log| + 1, "loop.state", LoopState(s));
    longer := log + [e];
    TraceAppend(log, e, first);
    LastStateAppend(log, e, first);
    BoundOfLonger(log, e, first);
  }

  // ----------------------------------------------------- calls to the authority

  datatype Operation = RunCommands | PatchCandidate | RunTargetedTest | RunFullVerify | RunCheckpoint
  datatype Call = Call(operation: Operation, binding: Binding, ok: bool)

  /** The calls that a turn from `s` to `t` makes: one in each working phase, and
      only its success leads on. A patch may succeed and its binding be refused. */
  predicate CallsFor(s: State, t: State, before: seq<Call>, after: seq<Call>, binding: Binding)
  {
    match s.phase
    case Parallel => after == before + [Call(RunCommands, binding, t.phase != DiagnoseRetry)]
    case Patching =>
      after == before + [Call(PatchCandidate, binding, true)]
      || (t.phase == DiagnoseRetry && after == before + [Call(PatchCandidate, binding, false)])
    case TargetedTest => after == before + [Call(RunTargetedTest, binding, t.phase != DiagnoseRetry)]
    case FullVerify => after == before + [Call(RunFullVerify, binding, t.phase != DiagnoseRetry)]
    case Checkpoint => after == before + [Call(RunCheckpoint, binding, true)]
    case _ => after == before
  }

  /** How far the calls have brought the candidate since it was last patched:
      1 patched, 2 targeted test passed, 3 full verification passed, 4
      checkpoint passed, each on the given binding and after the one before. */
  function Level(calls: seq<Call>, binding: Binding): nat
  {
    if calls == [] then 0
    else
      var before, call := Level(calls[..|calls| - 1], binding), calls[|calls| - 1];
      match call.operation
      case RunCommands => before
      case PatchCandidate => if call.ok then 1 else 0
      case RunTargetedTest => if call.ok && call.binding == binding && before == 1 then 2 else before
      case RunFullVerify => if call.ok && call.binding == binding && before == 2 then 3 else before
      case RunCheckpoint => if call.ok && call.binding == binding && before == 3 then 4 else before
  }

  /** The level that a phase presupposes. */
  function Required(phase: Phase): nat
  {
    match phase
    case TargetedTest => 1
    case FullVerify => 2
    case Checkpoint => 3
    case Completed => 4
    case _ => 0
  }

  ghost predicate Earned(s: State, calls: seq<Call>)
  {
    Level(calls, s.binding) >= Required(s.phase)
  }

  lemma {:induction false} LevelAppend(calls: seq<Call>, call: Call, binding: Binding)
    ensures var before, after := Level(calls, binding), Level(calls + [call], binding);
      && (call.operation != PatchCandidate ==> before <= after <= 4 || before > 4)
      && (call.ok && call.operation == PatchCandidate ==> after == 1)
      && (call.ok && call.binding == binding && call.operation == RunTargetedTest && before >= 1 ==> after >= 2)
      && (call.ok && call.binding == binding && call.operation == RunFullVerify && before >= 2 ==> after >= 3)
      && (call.ok && call.binding == binding && call.operation == RunCheckpoint && before >= 3 ==> after >= 4)
  {
    assert (calls + [call])[..|calls|] == calls;
  }

  ghost predicate Succeeded(calls: seq<Call>, i: int, operation: Operation, binding: Binding)
  {
    0 <= i < |calls| && calls[i].operation == operation && calls[i].ok && calls[i].binding == binding
  }

  /** Position `p` is the last patch call, and it succeeded. */
  ghost predicate LastPatch(calls: seq<Call>, p: int)
  {
    && 0 <= p < |calls| && calls[p].operation == PatchCandidate && calls[p].ok
    && forall i | p < i < |calls| :: calls[i].operation != PatchCandidate
  }

  /** After the last patch call, each verification step succeeded on the binding,
      in order. */
  ghost predicate VerifiedInOrder(calls: seq<Call>, binding: Binding, p: int, t: int, f: int, c: int)
  {
    && LastPatch(calls, p) && p < t < f < c
    && Succeeded(calls, t, RunTargetedTest, binding)
    && Succeeded(calls, f, RunFullVerify, binding)
    && Succeeded(calls, c, RunCheckpoint, binding)
  }

  /** What a level means in terms of the calls made. */
  lemma {:induction false} LevelMeaning(calls: seq<Call>, binding: Binding) returns (p: int, t: int, f: int, c: int)
    ensures Level(calls, binding) <= 4
    ensures Level(calls, binding) >= 1 ==> LastPatch(calls, p)
    ensures Level(calls, binding) >= 2 ==> p < t && Succeeded(calls, t, RunTargetedTest, binding)
    ensures Level(calls, binding) >= 3 ==> t < f && Succeeded(calls, f, RunFullVerify, binding)
    ensures Level(calls, binding) >= 4 ==> f < c && Succeeded(calls, c, RunCheckpoint, binding)
  {
    if calls == [] {
      p, t, f, c := 0, 0, 0, 0;
    } else {
      var n := |calls| - 1;
      p, t, f, c := LevelMeaning(calls[..n], binding);
      if calls[n].operation == PatchCandidate {
        p := n;
      } else if Level(calls, binding) > Level(calls[..n], binding) {
        match calls[n].operation {
          case RunTargetedTest => t := n;
          case RunFullVerify => f := n;
          case _ => c := n;
        }
      }
    }
  }

  /** Main result: a completed state is backed by a successful last patch and,
      after it, a targeted test, a full verification and a checkpoint that
      succeeded in that order on the recorded binding. */
  lemma {:induction false} CompletedIsVerified(s: State, calls: seq<Call>) returns (p: int, t: int, f: int, c: int)
    requires s.phase == Completed && Earned(s, calls)
    ensures VerifiedInOrder(calls, s.binding, p, t, f, c)
  {
    p, t, f, c := LevelMeaning(calls, s.binding);
  }
}
