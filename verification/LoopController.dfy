/** The controller of the autonomous loop (internal/loop/loop.go). What the model
    and the authority answer, which writes fail, and where the process dies are
    parameters and may be anything; a later Run starts from what is then stored. */
module LoopController {
  import opened EventStore
  import opened LoopModel
  import opened Options

  /** The error that Run returns; Died marks a run that did not return at all. */
  datatype Err = NoError | Rejected | NeedsHuman | RetryExhausted | ModelError | Cancelled | Died

  datatype Next = Continue(state: State, binding: Binding) | Stop(state: State, err: Err)

  datatype Answer<T> = Reply(value: T) | Refused | Crashed

  /** What happens around one turn of the loop: whether a cancellation is seen, what
      the model and the authority answer, and what becomes of the writes. `echo` is
      the effect of an authority call during which the process died, if any. */
  datatype Turn = Turn(cancelled: bool, hypothesis: Answer<string>, plan: Answer<Plan>, work: Answer<()>,
                       echo: Option<bool>, refreshed: Answer<Binding>, class_: string, diagnostic: string,
                       rowWrite: Write, checkpointWrite: Write, statusWrite: Write, stateWrite: Write)

  /** The run table and the ids of the checkpoints on record. */
  datatype Tables = Tables(runs: map<string, Run>, saved: set<string>)

  /** What happens around a call of Run: its reads, and then its turns. */
  datatype World = World(rowRead: bool, pageRead: nat -> bool, turns: nat -> Turn)

  predicate ReadsAll(world: World)
  {
    world.rowRead && forall page | 0 <= page < 10 :: world.pageRead(page)
  }

  /** Nothing fails in the turn, and no cancellation is seen. */
  predicate Succeeds(turn: Turn)
  {
    && !turn.cancelled && turn.work.Reply?
    && turn.hypothesis.Reply? && 0 < |turn.hypothesis.value| <= 4096
    && turn.refreshed.Reply? && ValidBinding(turn.refreshed.value)
    && turn.rowWrite.Written? && turn.checkpointWrite.Written? && turn.statusWrite.Written? && turn.stateWrite.Written?
  }

  /** No write fails in the turn, the process does not die, and no cancellation is
      seen; the model and the authority may refuse. */
  predicate Steady(turn: Turn)
  {
    && !turn.cancelled && !turn.work.Crashed? && !turn.hypothesis.Crashed? && !turn.plan.Crashed?
    && !turn.refreshed.Crashed?
    && turn.rowWrite.Written? && turn.checkpointWrite.Written? && turn.statusWrite.Written? && turn.stateWrite.Written?
  }

  /** The model's hypothesis is one that the loop does not take. */
  predicate BadHypothesis(s: State, turn: Turn)
  {
    s.phase == Inspect && turn.hypothesis.Reply? && !(0 < |turn.hypothesis.value| <= 4096)
  }

  lemma {:induction false} NotCancelled(turn: Turn)
    ensures Succeeds(turn) ==> !turn.cancelled && turn.work.Reply?
  {
  }

  /** The model offers a plan that can be taken. */
  predicate Offers(turn: Turn, binding: Binding, failed: seq<string>)
  {
    turn.plan.Reply? && Acceptable(turn.plan.value, binding, failed)
  }

  /** Nothing fails in the turn, and a plan that is asked for can be taken. */
  predicate Goes(turn: Turn, s: State, binding: Binding)
  {
    Succeeds(turn) && (s.phase in {Planning, DiagnoseRetry} ==> Offers(turn, binding, s.failedActions))
  }

  lemma {:induction false} GoesReplies(turn: Turn, s: State, binding: Binding)
    ensures Goes(turn, s, binding) ==> turn.work.Reply? && turn.stateWrite.Written?
  {
  }

  /** The phase after a turn in which nothing fails. */
  function Onward(phase: Phase): Phase
  {
    match phase
    case Inspect => Hypothesis
    case Hypothesis => Planning
    case Planning => Parallel
    case Parallel => Patching
    case Patching => TargetedTest
    case TargetedTest => FullVerify
    case FullVerify => Checkpoint
    case DiagnoseRetry => Parallel
    case _ => Completed
  }

  /** The run's row names the binding, as far as a patch can move it. */
  predicate RowNames(runs: map<string, Run>, id: string, b: Binding)
  {
    id in runs && runs[id].candidateSnapshot == b.candidateSnapshot && runs[id].environmentID == b.environmentID
    && runs[id].policyVersion == b.policyVersion
  }

  /** The state that a recorded failure of an action leads to. */
  function Diagnosed(s: State, failure: Failure): State
  {
    s.(lastFailure := failure, failedActions := s.failedActions + [failure.action.fingerprint],
      phase := DiagnoseRetry)
  }

  const NO_STATE := Initial(NO_BINDING)

  /** recordFailure's view of an action: its fingerprint. */
  function FirstAction(actions: seq<Action>, kind: string): Action
  {
    if |actions| == 0 then Action("", kind, "") else actions[0]
  }

  lemma {:induction false} BoundIsTrace(log: Log, binding: Binding)
    requires exists b :: Trace(log, b)
    ensures AllBound(log, binding) ==> Trace(log, binding)
  {
    if AllBound(log, binding) {
      var b :| Trace(log, b);
      TraceUnder(log, b, binding);
    }
  }

  lemma {:induction false} BoundOrLost(log: Log, first: Binding)
    requires Trace(log, first)
    ensures AllBound(log, first) || LoadsNoMore(log)
  {
    RefreshEndsResume(log, first);
    var nothing: Log := [];
    assert log + nothing == log;
  }

  lemma {:induction false} PrefixNotBound(log: Log, n: nat, binding: Binding)
    requires n <= |log| && !AllBound(log[..n], binding)
    ensures !AllBound(log, binding)
  {
    if AllBound(log, binding) {
      BoundPrefix(log, n, binding);
    }
  }

  /** A log with a stored state keeps having one, whatever counts as initial. */
  lemma {:induction false} SameHead(log: Log, longer: Log, a: Binding, b: Binding)
    requires log <= longer && LastState(log, a).phase != Inspect
    ensures LastState(log, a) == LastState(log, b) && LastState(longer, a) == LastState(longer, b)
    decreases |longer|
  {
    StoredState(log, a, b);
    if log != longer && !longer[|longer| - 1].payload.LoopState? {
      SameHead(log, longer[..|longer| - 1], a, b);
    }
  }

  predicate Untried(action: Action, s: State)
  {
    action.fingerprint != "" && action.fingerprint !in s.failedActions
  }

  /** The actions of a plan in use have fingerprints, none of which has failed. */
  lemma {:induction false} PlanIsFresh(s: State, maxRetries: nat)
    requires Bounded(s, maxRetries) && HasPlan(s.phase)
    ensures Untried(FirstAction(s.plan.commands, "parallel"), s) && Untried(s.plan.patch, s)
    ensures Untried(s.plan.targetedTest, s) && Untried(s.plan.fullVerify, s)
  {
    var plan, n := s.plan, |s.plan.commands|;
    assert Actions(plan)[0] == plan.commands[0] && Actions(plan)[n] == plan.patch;
    assert Actions(plan)[n + 1] == plan.targetedTest && Actions(plan)[n + 2] == plan.fullVerify;
  }

  lemma {:induction false} NothingFailedYet(s: State, maxRetries: nat)
    requires Bounded(s, maxRetries) && s.phase == Planning
    ensures s.failedActions == []
  {
  }

  /** fail: the state after the model did not answer in a phase. */
  function Gave(s: State, action: Action, diagnostic: string): State
  {
    s.(phase := Failed, lastFailure := Failure(s.phase, action, "model", diagnostic))
  }

  /** What a successful call makes of a level. */
  function Raised(level: nat, operation: Operation): nat
  {
    match operation
    case RunTargetedTest => if level >= 1 then 2 else 0
    case RunFullVerify => if level >= 2 then 3 else 0
    case RunCheckpoint => if level >= 3 then 4 else 0
    case _ => 0
  }

  /** The call of a phase that runs, tests or verifies, and where success leads. */
  function WorkOf(phase: Phase): Operation
  {
    match phase case Parallel => RunCommands case TargetedTest => RunTargetedTest case _ => RunFullVerify
  }

  function AfterWork(phase: Phase): Phase
  {
    match phase case Parallel => Patching case TargetedTest => FullVerify case _ => Checkpoint
  }

  lemma {:induction false} WorkLeads(s: State, maxRetries: nat, before: seq<Call>, after: seq<Call>)
    requires s.phase in {Parallel, TargetedTest, FullVerify} && Bounded(s, maxRetries) && Earned(s, before)
    requires Level(after, s.binding) >= Raised(Level(before, s.binding), WorkOf(s.phase))
    ensures var t := s.(phase := AfterWork(s.phase));
      && Follows(s, t, s.binding) && Bounded(t, maxRetries) && Earned(t, after)
      && Remaining(t, maxRetries) < Remaining(s, maxRetries)
  {
    TransitionUsesBudget(s, s.(phase := AfterWork(s.phase)), s.binding, maxRetries);
  }

  lemma {:induction false} StepContinues(s: State, t: State, binding: Binding)
    requires Follows(s, t, binding) && s.binding == binding
    ensures Continues(s, t) && (s.phase != Patching ==> t.binding == binding)
  {
  }

  lemma {:induction false} CallKeepsSound(before: seq<Call>, call: Call)
    requires call.operation != PatchCandidate
    ensures forall s: State | Earned(s, before) :: Earned(s, before + [call])
  {
    forall s: State | Earned(s, before) ensures Earned(s, before + [call]) {
      LevelAppend(before, call, s.binding);
      var p, t, f, c := LevelMeaning(before, s.binding);
    }
  }

  class Controller {
    const store: Store<Payload>
    const runID: string
    const maxRetries: nat
    const refreshes: bool                // the authority implements BindingRefresher
    const digest: State -> string        // what names a checkpoint
    var checkpoints: set<string>         // ids of the saved checkpoints, of all runs
    ghost var calls: seq<Call>           // every call made to the authority

    constructor (store: Store<Payload>, runID: string, maxRetries: nat, refreshes: bool, digest: State -> string,
                 saved: set<string>)
      requires store.Valid() && store.Log(runID) == [] && 0 < maxRetries <= 10
      ensures this.store == store && this.runID == runID && this.maxRetries == maxRetries
      ensures calls == [] && checkpoints == saved && Valid()
    {
      this.store, this.runID, this.maxRetries := store, runID, maxRetries;
      this.refreshes, this.digest := refreshes, digest;
      checkpoints, calls := saved, [];
      new;
      assert Trace(Log(), NO_BINDING);
    }

    function Log(): Log
      reads store
    {
      store.Log(runID)
    }

    /** What every run leaves behind, however it ended: each stored state continues
        the one before it, the last one is within its retry bounds, and the calls
        made so far have earned its phase. */
    ghost predicate Valid()
      reads this, store
    {
      && store.Valid() && maxRetries <= 10 && (exists b :: Trace(Log(), b))
      && forall b :: Sound(LastState(Log(), b))
    }

    ghost predicate Sound(s: State)
      reads this
    {
      Bounded(s, maxRetries) && Earned(s, calls)
    }

    /** Where the loop stands before a dispatch: the state in memory is the one
        stored, or the initial one. */
    ghost predicate AtHead(s: State, binding: Binding, first: Binding)
      reads this, store
    {
      Valid() && Trace(Log(), first) && LastState(Log(), first) == s && s.binding == binding && Sound(s)
    }

    // ---------------------------------------------------------------- storage

    method Persist(s: State, write: Write, ghost first: Binding) returns (ok: bool)
      requires Valid() && Sound(s) && Trace(Log(), first) && Continues(LastState(Log(), first), s)
      modifies store`events
      ensures Valid() && Trace(Log(), first) && old(Log()) <= Log()
      ensures ok <==> runID in store.runs && write.Written?
      ensures if runID in store.runs && Reaches(write) then forall b :: LastState(Log(), b) == s
              else Log() == old(Log())
    {
      ghost var event := Event(|Log()| + 1, "loop.state", LoopState(s));
      ghost var longer := Log() + [event];
      TraceAppend(Log(), event, first);
      forall b ensures LastState(longer, b) == s {
        LastStateAppend(Log(), event, b);
      }
      hide Trace, Continues, LastState, Bounded, Earned, GapFree;
      ok := store.AppendEvent(runID, "loop.state", LoopState(s), write);
      assert Log() == if runID in store.runs && Reaches(write) then longer else old(Log());
    }

    /** load: replays pages of the log. It returns the last stored state exactly
        when the log has fewer than 10,000 events and every loop state in it is
        about this binding. */
    method Load(binding: Binding, pageRead: nat -> bool) returns (loaded: Option<State>)
      requires store.Valid()
      ensures loaded.Some? ==>
        |Log()| < MAX_EVENTS && AllBound(Log(), binding) && loaded.value == LastState(Log(), binding)
      ensures (forall page | 0 <= page < 10 :: pageRead(page)) && |Log()| < MAX_EVENTS && AllBound(Log(), binding) ==>
        loaded.Some?
    {
      var state, after, page := Initial(binding), 0, 0;
      ghost var log := Log();
      assert AllBound(log[..0], binding) && state == LastState(log[..0], binding);
      hide AllBound, LastState;
      while page < 10
        invariant 0 <= page <= 10 && after == page * MAX_PAGE && after <= |log| && log == Log()
        invariant AllBound(log[..after], binding) && state == LastState(log[..after], binding)
      {
        var ok, n;
        ok, state, n := LoadPage(after, binding, state, pageRead(page));
        if !ok {
          return None;
        }
        after := after + n;
        if n < MAX_PAGE {
          assert log[..after] == log;
          return Some(state);
        }
        page := page + 1;
      }
      return None;
    }

    /** One turn of load's loop: a page of events and what they make of the state. */
    method LoadPage(after: nat, binding: Binding, before: State, read: bool)
      returns (ok: bool, state: State, n: nat)
      requires store.Valid() && after <= |Log()|
      requires AllBound(Log()[..after], binding) && before == LastState(Log()[..after], binding)
      ensures ok ==> n <= MAX_PAGE && after + n <= |Log()| && (n < MAX_PAGE ==> after + n == |Log()|)
      ensures ok ==> AllBound(Log()[..after + n], binding) && state == LastState(Log()[..after + n], binding)
      ensures !ok && read ==> !AllBound(Log(), binding)
    {
      hide AllBound, LastState, GapFree;
      state, n := before, 0;
      var events;
      ok, events := store.ListEvents(runID, after, MAX_PAGE, read);
      if !ok {
        return;
      }
      n := |events|;
      assert events == Log()[after..after + n];
      state, ok := Replay(events, after, binding, before);
      if !ok {
        PrefixNotBound(Log(), after + n, binding);
      }
    }

    /** The inner loop of load: one page on top of what was read before. */
    method Replay(page: Log, after: nat, binding: Binding, before: State) returns (state: State, bound: bool)
      requires store.Valid() && after + |page| <= |Log()| && page == Log()[after..after + |page|]
      requires AllBound(Log()[..after], binding) && before == LastState(Log()[..after], binding)
      ensures bound <==> AllBound(Log()[..after + |page|], binding)
      ensures bound ==> state == LastState(Log()[..after + |page|], binding)
    {
      hide AllBound, LastState;
      state := before;
      var i := 0;
      while i < |page|
        invariant 0 <= i <= |page|
        invariant AllBound(Log()[..after + i], binding) && state == LastState(Log()[..after + i], binding)
      {
        var event := page[i];
        assert event == Log()[after + i];
        assert Log()[..after + i + 1] == Log()[..after + i] + [event];
        LastStateAppend(Log()[..after + i], event, binding);
        BoundOfLonger(Log()[..after + i], event, binding);
        if event.payload.LoopState? {
          if event.payload.state.binding != binding {
            assert Log()[..after + |page|][..after + i + 1] == Log()[..after + i + 1];
            PrefixNotBound(Log()[..after + |page|], after + i + 1, binding);
            return state, false;
          }
          state := event.payload.state;
        }
        i := i + 1;
      }
      return state, true;
    }

    // ------------------------------------------------------- the outside world

    /** A call to the authority; if the process dies around it, it may or may not
        have had its effect. */
    method AskAuthority(operation: Operation, binding: Binding, turn: Turn)
      modifies this`calls
      ensures turn.work.Reply? ==> calls == old(calls) + [Call(operation, binding, true)]
      ensures turn.work.Refused? ==> calls == old(calls) + [Call(operation, binding, false)]
      ensures turn.work.Crashed? ==>
        calls == if turn.echo.Some? then old(calls) + [Call(operation, binding, turn.echo.value)] else old(calls)
    {
      if turn.work.Reply? {
        calls := calls + [Call(operation, binding, true)];
      } else if turn.work.Refused? {
        calls := calls + [Call(operation, binding, false)];
      } else if turn.echo.Some? {
        calls := calls + [Call(operation, binding, turn.echo.value)];
      }
    }

    /** A call that verifies: it cannot lower what the calls have earned, so every
        stored state stays sound. */
    method AskVerifier(operation: Operation, binding: Binding, turn: Turn)
      requires Valid() && operation != PatchCandidate
      modifies this`calls
      ensures Valid()
      ensures turn.work.Reply? ==> calls == old(calls) + [Call(operation, binding, true)]
      ensures turn.work.Refused? ==> calls == old(calls) + [Call(operation, binding, false)]
      ensures forall s: State | Earned(s, old(calls)) :: Earned(s, calls)
      ensures turn.work.Reply? ==> Level(calls, binding) >= Raised(Level(old(calls), binding), operation)
    {
      forall ok
        ensures forall s: State | Earned(s, calls) :: Earned(s, calls + [Call(operation, binding, ok)])
      {
        CallKeepsSound(calls, Call(operation, binding, ok));
      }
      LevelAppend(calls, Call(operation, binding, true), binding);
      AskAuthority(operation, binding, turn);
    }

    /** A patch call: what it may lower is presupposed by no stored state. */
    method AskPatch(binding: Binding, turn: Turn)
      requires Valid() && forall b :: LastState(Log(), b).phase == Patching
      modifies this`calls
      ensures Valid()
      ensures turn.work.Reply? ==>
        calls == old(calls) + [Call(PatchCandidate, binding, true)] && forall b :: Level(calls, b) == 1
      ensures turn.work.Refused? ==> calls == old(calls) + [Call(PatchCandidate, binding, false)]
    {
      ghost var longer := calls + [Call(PatchCandidate, binding, true)];
      forall b ensures Level(longer, b) == 1 {
        LevelAppend(calls, Call(PatchCandidate, binding, true), b);
      }
      AskAuthority(PatchCandidate, binding, turn);
    }

    /** The loop goes on with a state that the phase table allows, that is sound,
        and that is nearer to the end. */
    ghost predicate Led(s: State, binding: Binding, next: Next)
      requires next.Continue?
      reads this
    {
      && Follows(s, next.state, binding) && Sound(next.state) && next.state.binding == next.binding
      && Remaining(next.state, maxRetries) < Remaining(s, maxRetries)
    }

    lemma {:induction false} LeadsOn(s: State, binding: Binding, t: State)
      requires Follows(s, t, binding) && Bounded(t, maxRetries) && Earned(t, calls) && t.binding == binding
      requires Remaining(t, maxRetries) < Remaining(s, maxRetries)
      ensures Led(s, binding, Continue(t, binding))
    {
    }

    // ----------------------------------------------------------------- failures

    /** recordFailure: an action that has not failed before sends the loop to
        diagnosis. Since plans never repeat a failed action, only an action
        without fingerprint ends the run here. */
    method RecordFailure(s: State, failure: Failure, turn: Turn, ghost first: Binding) returns (next: Next)
      requires Valid() && Sound(s) && HasPlan(s.phase) && failure.phase == s.phase
      requires Trace(Log(), first) && LastState(Log(), first) == s
      requires failure.action.fingerprint == "" || failure.action.fingerprint !in s.failedActions
      modifies store`events
      ensures Valid() && Trace(Log(), first) && old(Log()) <= Log()
      ensures failure.action.fingerprint != "" ==>
        next == Continue(Diagnosed(s, failure), s.binding) && Log() == old(Log())
      ensures next.Continue? ==> next.state.phase == DiagnoseRetry
      ensures failure.action.fingerprint != "" && s.phase != Checkpoint ==> Led(s, s.binding, next)
      ensures failure.action.fingerprint == "" ==> EndedAs(s.(phase := Failed), RetryExhausted, turn.stateWrite, next)
      ensures EndsInOrder(s, turn, next, first, checkpoints)
    {
      var fingerprint := failure.action.fingerprint;
      if fingerprint == "" || fingerprint in s.failedActions {
        next := End(s.(phase := Failed), RetryExhausted, turn.stateWrite, first);
        return;
      }
      next := Continue(s.(lastFailure := failure, failedActions := s.failedActions + [fingerprint],
        phase := DiagnoseRetry), s.binding);
      if s.phase != Checkpoint {
        TransitionUsesBudget(s, next.state, s.binding, maxRetries);
      }
    }

    /** The call ends in `s`: that is stored and returned with its error, or the
        write is reported as failed, whether or not it reached the disk. */
    twostate predicate EndedAs(s: State, err: Err, write: Write, next: Next)
      reads this, store
    {
      && next == (if runID in store.runs && write.Written? then Stop(s, err) else Stop(NO_STATE, Rejected))
      && if runID in store.runs && Reaches(write) then forall b :: LastState(Log(), b) == s else Log() == old(Log())
    }

    /** Ends the run in a terminal phase. */
    method End(s: State, err: Err, write: Write, ghost first: Binding) returns (next: Next)
      requires Valid() && Trace(Log(), first) && Ends(LastState(Log(), first), s) && err != NoError
      modifies store`events
      ensures Valid() && Trace(Log(), first) && old(Log()) <= Log() && EndedAs(s, err, write, next)
    {
      var ok := Persist(s, write, first);
      return if ok then Stop(s, err) else Stop(NO_STATE, Rejected);
    }

    // ----------------------------------------------------------------- dispatch

    /** What one turn of the loop does: it either goes on with a state that is
        nearer to the end, or stops with what is stored in order. */
    twostate predicate Turned(s: State, binding: Binding, next: Next, first: Binding)
      reads this, store
    {
      && Valid() && Trace(Log(), first) && old(Log()) <= Log() && old(checkpoints) <= checkpoints
      && (next.Stop? && Log() != old(Log()) ==> forall b :: LastState(Log(), b).phase in {Failed, HumanCheckpoint})
      && (next.Continue? ==>
            && Log() == old(Log()) && Sound(s) && Led(s, binding, next)
            && CallsFor(s, next.state, old(calls), calls, binding))
      && (next.Stop? && (next.state.phase == Completed || next.err == NoError) ==>
        s.phase == Completed && next.state == s && Sound(s))
    }

    function CheckpointID(s: State): string
    {
      "checkpoint_" + digest(s)
    }

    function Durable(): Tables
      reads this, store
    {
      Tables(store.runs, checkpoints)
    }

    /** The run is at its checkpoint and the checkpoint's record is there already. */
    predicate CheckpointTaken(s: State, saved: set<string>)
    {
      s.phase == Checkpoint && CheckpointID(s) in saved
    }

    /** A turn in which no write fails and nothing dies ends the call only in a
        terminal state, which is stored then, or for a hypothesis that is not taken,
        or for a checkpoint whose record exists. */
    ghost predicate EndsInOrder(s: State, turn: Turn, next: Next, first: Binding, saved: set<string>)
      reads this, store
    {
      (Steady(turn) && runID in store.runs && next.Stop?) ==>
        || (Terminal(next.state.phase) && LastState(Log(), first) == next.state)
        || (next == Stop(NO_STATE, Rejected) && LastState(Log(), first) == s
            && (BadHypothesis(s, turn) || CheckpointTaken(s, saved)))
    }

    lemma {:induction false} UnsteadyEnd(s: State, turn: Turn, next: Next, first: Binding, saved: set<string>)
      requires next.Continue? || !turn.stateWrite.Written? || turn.work.Crashed? || runID !in store.runs
      ensures EndsInOrder(s, turn, next, first, saved)
    {
    }

    /** The call ends without having stored anything in the turn. */
    predicate Quits(next: Next)
    {
      next in {Stop(NO_STATE, Rejected), Stop(NO_STATE, Died)}
    }

    /** Nothing in the stored state keeps this turn from leading on: there are
        retries left when one is due, and the checkpoint to be saved is new. */
    predicate Open(s: State, tables: Tables)
    {
      && runID in tables.runs && !Terminal(s.phase)
      && (s.phase == DiagnoseRetry ==> s.retryCount < maxRetries)
      && (s.phase == Checkpoint ==> CheckpointID(s) !in tables.saved)
    }

    /** When nothing fails, the turn leads on. When it goes on, the row moves with the
        binding, and a completed run has its status. */
    predicate Went(s: State, binding: Binding, turn: Turn, next: Next, before: Tables, after: Tables)
    {
      && (Goes(turn, s, binding) && Open(s, before) ==>
            next.Continue? && next.state.phase == Onward(s.phase) && next.state.failedActions == s.failedActions)
      && (runID in before.runs ==> runID in after.runs)
      && (next.Continue? && RowNames(before.runs, runID, binding) ==> RowNames(after.runs, runID, next.binding))
      && (next.Continue? ==> Kept(next, before, after))
    }

    predicate Kept(next: Next, before: Tables, after: Tables)
      requires next.Continue?
    {
      && (next.state.phase == Completed ==>
            && runID in after.runs && after.runs[runID].status == "completed"
            && next.state.checkpointID !in before.saved)
      && (next.state.phase != Completed ==> after.saved == before.saved)
    }

    /** Inspect and hypothesis, for whatever the model answers. */
    method Prepare(s: State, binding: Binding, turn: Turn, ghost first: Binding) returns (next: Next)
      requires AtHead(s, binding, first) && s.phase in {Inspect, Hypothesis}
      modifies store`events
      ensures Turned(s, binding, next, first)
      ensures EndsInOrder(s, turn, next, first, old(checkpoints))
      ensures s.phase == Hypothesis ==> next == Continue(s.(phase := Planning), binding)
      ensures s.phase == Inspect && turn.hypothesis.Crashed? ==> next == Stop(NO_STATE, Died) && Log() == old(Log())
      ensures s.phase == Inspect && turn.hypothesis.Refused? ==>
        EndedAs(Gave(s, Action("", "inspect", ""), turn.diagnostic), ModelError, turn.stateWrite, next)
      ensures s.phase == Inspect && turn.hypothesis.Reply? ==>
        var hypothesis := turn.hypothesis.value;
        if 0 < |hypothesis| <= 4096 then next == Continue(s.(hypothesis := hypothesis, phase := Hypothesis), binding)
        else next == Stop(NO_STATE, Rejected) && Log() == old(Log())
    {
      hide Bounded, Remaining, LastState, Trace, Continues;
      if s.phase == Inspect {
        if turn.hypothesis.Crashed? {
          return Stop(NO_STATE, Died);
        }
        if turn.hypothesis.Refused? {
          next := End(Gave(s, Action("", "inspect", ""), turn.diagnostic), ModelError, turn.stateWrite, first);
          return;
        }
        var hypothesis := turn.hypothesis.value;
        if hypothesis == "" || |hypothesis| > 4096 {
          return Stop(NO_STATE, Rejected);
        }
        TransitionUsesBudget(s, s.(hypothesis := hypothesis, phase := Hypothesis), binding, maxRetries);
        return Continue(s.(hypothesis := hypothesis, phase := Hypothesis), binding);
      }
      TransitionUsesBudget(s, s.(phase := Planning), binding, maxRetries);
      return Continue(s.(phase := Planning), binding);
    }

    /** The first plan, for whatever the model answers; a human decides on one that
        is not acceptable. */
    method MakePlan(s: State, binding: Binding, turn: Turn, ghost first: Binding) returns (next: Next)
      requires AtHead(s, binding, first) && s.phase == Planning
      modifies store`events
      ensures Turned(s, binding, next, first)
      ensures EndsInOrder(s, turn, next, first, old(checkpoints))
      ensures turn.plan.Crashed? ==> next == Stop(NO_STATE, Died) && Log() == old(Log())
      ensures turn.plan.Refused? ==>
        EndedAs(Gave(s, Action("", "plan", ""), turn.diagnostic), ModelError, turn.stateWrite, next)
      ensures turn.plan.Reply? ==>
        if Acceptable(turn.plan.value, binding, s.failedActions)
        then next == Continue(s.(plan := turn.plan.value, phase := Parallel), binding)
        else EndedAs(s.(phase := HumanCheckpoint), NeedsHuman, turn.stateWrite, next)
    {
      NothingFailedYet(s, maxRetries);
      hide Bounded, Remaining, LastState, Trace, Continues;
      if turn.plan.Crashed? {
        return Stop(NO_STATE, Died);
      }
      if turn.plan.Refused? {
        next := End(Gave(s, Action("", "plan", ""), turn.diagnostic), ModelError, turn.stateWrite, first);
        return;
      }
      var plan := turn.plan.value;
      var acceptable := ValidPlan(plan, binding) && !plan.destructive && !plan.ambiguous;
      assert acceptable <==> Acceptable(plan, binding, s.failedActions);
      hide ValidPlan, RepeatedPlan, Acceptable;
      if !acceptable {
        next := End(s.(phase := HumanCheckpoint), NeedsHuman, turn.stateWrite, first);
        return;
      }
      TransitionUsesBudget(s, s.(plan := plan, phase := Parallel), binding, maxRetries);
      return Continue(s.(plan := plan, phase := Parallel), binding);
    }

    /** Diagnosis after a failure, for whatever the model answers: a bounded number
        of new plans, none of which repeats a failed action. */
    method Diagnose(s: State, binding: Binding, turn: Turn, ghost first: Binding) returns (next: Next)
      requires AtHead(s, binding, first) && s.phase == DiagnoseRetry
      modifies store`events
      ensures Turned(s, binding, next, first)
      ensures EndsInOrder(s, turn, next, first, old(checkpoints))
      ensures s.retryCount >= maxRetries ==> EndedAs(s.(phase := Failed), RetryExhausted, turn.stateWrite, next)
      ensures s.retryCount < maxRetries && turn.plan.Crashed? ==> next == Stop(NO_STATE, Died) && Log() == old(Log())
      ensures s.retryCount < maxRetries && turn.plan.Refused? ==>
        EndedAs(Gave(s, s.lastFailure.action, turn.diagnostic), ModelError, turn.stateWrite, next)
      ensures s.retryCount < maxRetries && turn.plan.Reply? ==>
        if Acceptable(turn.plan.value, binding, s.failedActions)
        then next == Continue(s.(plan := turn.plan.value, retryCount := s.retryCount + 1, phase := Parallel), binding)
        else EndedAs(s.(phase := Failed), RetryExhausted, turn.stateWrite, next)
    {
      hide Bounded, Remaining, LastState, Trace, Continues;
      if s.retryCount >= maxRetries {
        next := End(s.(phase := Failed), RetryExhausted, turn.stateWrite, first);
        return;
      }
      if turn.plan.Crashed? {
        return Stop(NO_STATE, Died);
      }
      if turn.plan.Refused? {
        next := End(Gave(s, s.lastFailure.action, turn.diagnostic), ModelError, turn.stateWrite, first);
        return;
      }
      var plan := turn.plan.value;
      if !ValidPlan(plan, binding) || plan.destructive || plan.ambiguous || RepeatedPlan(plan, s.failedActions) {
        next := End(s.(phase := Failed), RetryExhausted, turn.stateWrite, first);
        return;
      }
      TransitionUsesBudget(s, s.(plan := plan, retryCount := s.retryCount + 1, phase := Parallel), binding, maxRetries);
      return Continue(s.(plan := plan, retryCount := s.retryCount + 1, phase := Parallel), binding);
    }

    /** Parallel commands, targeted test and full verification, for whatever the
        authority answers: success leads to the next phase, and a failure of the
        phase's own action to diagnosis. */
    method Work(s: State, binding: Binding, turn: Turn, ghost first: Binding) returns (next: Next)
      requires AtHead(s, binding, first) && s.phase in {Parallel, TargetedTest, FullVerify}
      modifies this`calls, store`events
      ensures Turned(s, binding, next, first)
      ensures EndsInOrder(s, turn, next, first, old(checkpoints))
      ensures turn.work.Crashed? ==> next == Stop(NO_STATE, Died) && Log() == old(Log())
      ensures turn.work.Reply? && s.phase == Parallel ==> next == Continue(s.(phase := Patching), binding)
      ensures turn.work.Reply? && s.phase == TargetedTest ==> next == Continue(s.(phase := FullVerify), binding)
      ensures turn.work.Reply? && s.phase == FullVerify ==> next == Continue(s.(phase := Checkpoint), binding)
      ensures turn.work.Refused? ==>
        && next.Continue? && next.binding == binding && next.state.phase == DiagnoseRetry
        && next.state.lastFailure.phase == s.phase && next.state.lastFailure.action ==
          (if s.phase == Parallel then FirstAction(s.plan.commands, "parallel")
           else if s.phase == TargetedTest then s.plan.targetedTest else s.plan.fullVerify)
        && next.state == Diagnosed(s, Failure(s.phase, next.state.lastFailure.action, turn.class_, turn.diagnostic))
    {
      var operation := WorkOf(s.phase);
      var action := match s.phase case Parallel => FirstAction(s.plan.commands, "parallel")
                                  case TargetedTest => s.plan.targetedTest case _ => s.plan.fullVerify;
      PlanIsFresh(s, maxRetries);
      assert Bounded(s, maxRetries) && Earned(s, calls);
      hide LastState, Level, Trace, Continues, Bounded, Remaining, Earned, Raised, Follows, Led, Sound, EndsInOrder;
      AskVerifier(operation, binding, turn);
      if turn.work.Crashed? {
        UnsteadyEnd(s, turn, Stop(NO_STATE, Died), first, old(checkpoints));
        return Stop(NO_STATE, Died);
      }
      if turn.work.Refused? {
        assert Log() == old(Log());
        next := RecordFailure(s, Failure(s.phase, action, turn.class_, turn.diagnostic), turn, first);
        return;
      }
      WorkLeads(s, maxRetries, old(calls), calls);
      LeadsOn(s, binding, s.(phase := AfterWork(s.phase)));
      next := Continue(s.(phase := AfterWork(s.phase)), binding);
      UnsteadyEnd(s, turn, next, first, old(checkpoints));
    }

    /** The patch, and the binding it leads to. */
    method ApplyPatch(s: State, binding: Binding, turn: Turn, ghost first: Binding) returns (next: Next)
      requires AtHead(s, binding, first) && s.phase == Patching
      modifies this`calls, store
      ensures Turned(s, binding, next, first)
      ensures EndsInOrder(s, turn, next, first, old(checkpoints))
      ensures turn.work.Crashed? ==>
        next == Stop(NO_STATE, Died) && Log() == old(Log()) && store.runs == old(store.runs)
      ensures turn.work.Refused? ==>
        && store.runs == old(store.runs)
        && next == Continue(Diagnosed(s, Failure(Patching, s.plan.patch, turn.class_, turn.diagnostic)), binding)
      ensures turn.work.Reply? ==> Log() == old(Log()) && Moved(s, binding, turn, next, old(Durable()), Durable())
    {
      PlanIsFresh(s, maxRetries);
      hide LastState, Level, Trace, Continues, Bounded, Remaining, Earned, Follows, Led, Moved, EndsInOrder, Sound;
      hide Diagnosed, FailsInto, FirstAction;
      forall b ensures LastState(Log(), b) == s {
        StoredState(Log(), first, b);
      }
      AskPatch(binding, turn);
      if turn.work.Crashed? {
        UnsteadyEnd(s, turn, Stop(NO_STATE, Died), first, old(checkpoints));
        return Stop(NO_STATE, Died);
      }
      if turn.work.Refused? {
        assert Log() == old(Log());
        next := RecordFailure(s, Failure(Patching, s.plan.patch, turn.class_, turn.diagnostic), turn, first);
        return;
      }
      assert Log() == old(Log());
      next := MoveBinding(s, binding, turn, first);
    }

    /** What comes of a successful patch. The test is next: on the same binding when
        the authority refreshes none, and else on the refreshed one, which by then
        is in the run's row. */
    predicate Moved(s: State, binding: Binding, turn: Turn, next: Next, before: Tables, after: Tables)
    {
      && after.saved == before.saved
      && if !refreshes then next == Continue(s.(phase := TargetedTest), binding) && after == before
         else match turn.refreshed
              case Crashed => next == Stop(NO_STATE, Died) && after == before
              case Refused => after == before
                && next == Continue(Diagnosed(s, Failure(Patching, s.plan.patch, "binding", turn.diagnostic)), binding)
              case Reply(b) =>
                if !ValidBinding(b) then after == before
                  && next == Continue(Diagnosed(s, Failure(Patching, s.plan.patch, "binding", "")), binding)
                else RowMoved(s, b, turn, next, before, after)
    }

    predicate RowMoved(s: State, b: Binding, turn: Turn, next: Next, before: Tables, after: Tables)
    {
      && after.runs == (if runID in before.runs && Reaches(turn.rowWrite)
                        then before.runs[runID := MovedRow(before.runs[runID], b)] else before.runs)
      && next == (if runID in before.runs && turn.rowWrite.Written?
                  then Continue(s.(binding := b, plan := s.plan.(binding := b), phase := TargetedTest), b)
                  else Stop(NO_STATE, Rejected))
    }

    /** After a patch: the binding that the authority refreshes, if it does. */
    method MoveBinding(s: State, binding: Binding, turn: Turn, ghost first: Binding) returns (next: Next)
      requires AtHead(s, binding, first) && s.phase == Patching
      requires forall b :: Level(calls, b) == 1
      modifies store
      ensures Valid() && Trace(Log(), first) && Log() == old(Log())
      ensures Moved(s, binding, turn, next, old(Durable()), Durable())
      ensures EndsInOrder(s, turn, next, first, old(checkpoints)) && (next.Stop? ==> Quits(next))
      ensures next.Continue? ==> Led(s, binding, next)
    {
      PlanIsFresh(s, maxRetries);
      hide LastState, Level, Trace, Continues, Bounded, Remaining;
      if !refreshes {
        next := Continue(s.(phase := TargetedTest), binding);
        TransitionUsesBudget(s, next.state, binding, maxRetries);
        return;
      }
      if turn.refreshed.Crashed? {
        return Stop(NO_STATE, Died);
      }
      if turn.refreshed.Refused? || !ValidBinding(turn.refreshed.value) {
        var diagnostic := if turn.refreshed.Refused? then turn.diagnostic else "";
        next := RecordFailure(s, Failure(Patching, s.plan.patch, "binding", diagnostic), turn, first);
        return;
      }
      var moved := turn.refreshed.value;
      var ok := store.UpdateRunBinding(runID, moved.candidateSnapshot, moved.environmentID, moved.policyVersion,
                                       turn.rowWrite);
      assert Log() == old(Log());
      if !ok {
        return Stop(NO_STATE, Rejected);
      }
      next := Continue(s.(binding := moved, plan := s.plan.(binding := moved), phase := TargetedTest), moved);
      TransitionUsesBudget(s, next.state, binding, maxRetries);
    }

    /** The checkpoint, for whatever the authority answers: its record must be new. */
    method SaveCheckpoint(s: State, binding: Binding, turn: Turn, ghost first: Binding) returns (next: Next)
      requires AtHead(s, binding, first) && s.phase == Checkpoint
      modifies this`calls, this`checkpoints, store
      ensures Turned(s, binding, next, first)
      ensures EndsInOrder(s, turn, next, first, old(checkpoints))
      ensures turn.work.Crashed? ==> next == Stop(NO_STATE, Died) && Log() == old(Log())
      ensures turn.work.Refused? ==> EndedAs(s.(phase := Failed), RetryExhausted, turn.stateWrite, next)
      ensures !turn.work.Reply? ==> checkpoints == old(checkpoints) && store.runs == old(store.runs)
      ensures turn.work.Reply? ==> Log() == old(Log()) && Saved(s, binding, turn, next, old(Durable()), Durable())
    {
      hide LastState, Level, Trace, Continues, Bounded, Remaining, Follows, Led, EndsInOrder, Saved;
      forall b ensures LastState(Log(), b) == s {
        StoredState(Log(), first, b);
      }
      AskVerifier(RunCheckpoint, binding, turn);
      if turn.work.Crashed? {
        UnsteadyEnd(s, turn, Stop(NO_STATE, Died), first, old(checkpoints));
        return Stop(NO_STATE, Died);
      }
      if turn.work.Refused? {
        var failure := Failure(Checkpoint, Action("", "checkpoint", ""), turn.class_, turn.diagnostic);
        assert Log() == old(Log()) && checkpoints == old(checkpoints);
        next := RecordFailure(s, failure, turn, first);
        return;
      }
      assert Log() == old(Log()) && checkpoints == old(checkpoints);
      next := StoreCheckpoint(s, binding, turn, first);
      assert Log() == old(Log()) && Trace(Log(), first);
    }

    /** What comes of a successful checkpoint: its record, then the run's status,
        then the completed state; a record that is there already ends the call. */
    predicate Saved(s: State, binding: Binding, turn: Turn, next: Next, before: Tables, after: Tables)
    {
      var isNew := CheckpointID(s) !in before.saved;
      var recorded := isNew && turn.checkpointWrite.Written?;
      && after.saved ==
        (if isNew && Reaches(turn.checkpointWrite) then before.saved + {CheckpointID(s)} else before.saved)
      && after.runs == (if recorded && runID in before.runs && Reaches(turn.statusWrite)
                        then before.runs[runID := before.runs[runID].(status := "completed")] else before.runs)
      && next == (if recorded && runID in before.runs && turn.statusWrite.Written?
                  then Continue(s.(checkpointID := CheckpointID(s), phase := Completed), binding)
                  else Stop(NO_STATE, Rejected))
    }

    /** SaveCheckpoint on the store, and the run's new status. */
    method StoreCheckpoint(s: State, binding: Binding, turn: Turn, ghost first: Binding) returns (next: Next)
      requires AtHead(s, binding, first) && s.phase == Checkpoint && Level(calls, binding) >= 4
      modifies this`checkpoints, store
      ensures Valid() && Log() == old(Log()) && Saved(s, binding, turn, next, old(Durable()), Durable())
      ensures EndsInOrder(s, turn, next, first, old(checkpoints)) && (next.Stop? ==> Quits(next))
      ensures old(checkpoints) <= checkpoints
      ensures next.Continue? ==> Led(s, binding, next)
    {
      hide LastState, Level, Trace, Continues;
      if CheckpointID(s) in checkpoints {
        return Stop(NO_STATE, Rejected);
      }
      if Reaches(turn.checkpointWrite) {
        checkpoints := checkpoints + {CheckpointID(s)};
      }
      assert Log() == old(Log());
      if !turn.checkpointWrite.Written? {
        return Stop(NO_STATE, Rejected);
      }
      var ok := store.UpdateRunStatus(runID, "completed", turn.statusWrite);
      assert Log() == old(Log());
      if !ok {
        return Stop(NO_STATE, Rejected);
      }
      return Continue(s.(checkpointID := CheckpointID(s), phase := Completed), binding);
    }

    /** Nothing durable has changed, and no call was made. */
    twostate predicate Still()
      reads this, store
    {
      calls == old(calls) && checkpoints == old(checkpoints) && store.runs == old(store.runs)
        && store.events == old(store.events)
    }

    method TerminalError(s: State, binding: Binding, turn: Turn, ghost first: Binding) returns (next: Next)
      requires AtHead(s, binding, first) && Terminal(s.phase)
      ensures Turned(s, binding, next, first)
      ensures EndsInOrder(s, turn, next, first, old(checkpoints))
      ensures next.Stop? && next.state == s && (next.err == NoError <==> s.phase == Completed)
      ensures s.phase == Failed ==> next.err == RetryExhausted
      ensures s.phase == HumanCheckpoint ==> next.err == NeedsHuman
    {
      match s.phase {
        case Completed => next := Stop(s, NoError);
        case HumanCheckpoint => next := Stop(s, NeedsHuman);
        case _ => next := Stop(s, RetryExhausted);
      }
    }

    /** A turn that leaves the row and the checkpoints alone. */
    lemma {:induction false} WentInPlace(s: State, binding: Binding, turn: Turn, next: Next, tables: Tables)
      requires next.Continue? ==> next.binding == binding && next.state.phase != Completed
      requires Goes(turn, s, binding) && Open(s, tables) ==>
        next.Continue? && next.state.phase == Onward(s.phase) && next.state.failedActions == s.failedActions
      ensures Went(s, binding, turn, next, tables, tables)
    {
      hide Goes, Open, Onward;
    }

    lemma {:induction false} WentToTest(s: State, binding: Binding, turn: Turn, next: Next, before: Tables,
                                        after: Tables)
      requires s.phase == Patching && turn.work.Reply? && Moved(s, binding, turn, next, before, after)
      ensures Went(s, binding, turn, next, before, after)
    {
    }

    lemma {:induction false} WentToEnd(s: State, binding: Binding, turn: Turn, next: Next, before: Tables,
                                       after: Tables)
      requires s.phase == Checkpoint && turn.work.Reply? && Saved(s, binding, turn, next, before, after)
      ensures Went(s, binding, turn, next, before, after)
    {
    }

    /** The switch on the phase. */
    method Dispatch(s: State, binding: Binding, turn: Turn, ghost first: Binding) returns (next: Next)
      requires AtHead(s, binding, first)
      modifies this`calls, this`checkpoints, store
      ensures Turned(s, binding, next, first)
      ensures s.phase == Completed ==> next == Stop(s, NoError)
      ensures Terminal(s.phase) ==> next.Stop? && next.state == s && Still()
      ensures s.phase == Patching && turn.work.Reply? ==> Moved(s, binding, turn, next, old(Durable()), Durable())
      ensures s.phase == Checkpoint ==>
        if turn.work.Reply? then Log() == old(Log()) && Saved(s, binding, turn, next, old(Durable()), Durable())
        else next.Stop? && next.state.phase != Completed
      ensures s.phase in {Parallel, Patching, TargetedTest, FullVerify} && turn.work.Refused? ==>
        && next.Continue? && next.binding == binding && next.state.lastFailure.phase == s.phase
        && next.state == Diagnosed(s, next.state.lastFailure)
      ensures EndsInOrder(s, turn, next, first, old(checkpoints))
      ensures s.phase !in {Patching, Checkpoint} || !turn.work.Reply? ==>
        && Durable() == old(Durable()) && (next.Continue? ==> next.binding == binding && next.state.phase != Completed)
        && (Goes(turn, s, binding) && Open(s, Durable()) ==>
              next.Continue? && next.state.phase == Onward(s.phase) && next.state.failedActions == s.failedActions)
    {
      hide Turned, Moved, Saved, LastState, Trace, Bounded, Remaining, Earned, Continues, Level, Acceptable,
        EndsInOrder;
      match s.phase {
        case Inspect => next := Prepare(s, binding, turn, first);
        case Hypothesis => next := Prepare(s, binding, turn, first);
        case Planning => next := MakePlan(s, binding, turn, first);
        case DiagnoseRetry => next := Diagnose(s, binding, turn, first);
        case Parallel => next := Work(s, binding, turn, first);
        case TargetedTest => next := Work(s, binding, turn, first);
        case FullVerify => next := Work(s, binding, turn, first);
        case Patching => next := ApplyPatch(s, binding, turn, first);
        case Checkpoint => next := SaveCheckpoint(s, binding, turn, first);
        case Completed => next := TerminalError(s, binding, turn, first);
        case Failed => next := TerminalError(s, binding, turn, first);
        case HumanCheckpoint => next := TerminalError(s, binding, turn, first);
      }
    }

    lemma {:induction false} TakenIsRejected(s: State, binding: Binding, turn: Turn, next: Next, before: Tables,
                                             after: Tables)
      requires s.phase == Checkpoint ==> Saved(s, binding, turn, next, before, after)
      ensures CheckpointTaken(s, before.saved) ==> next == Stop(NO_STATE, Rejected) && after.saved == before.saved
    {
    }

    /** What a dispatch means for a run in which nothing fails. */
    lemma {:induction false} DispatchWent(s: State, binding: Binding, turn: Turn, next: Next, before: Tables,
                                          after: Tables)
      requires s.phase == Patching && turn.work.Reply? ==> Moved(s, binding, turn, next, before, after)
      requires s.phase == Checkpoint && turn.work.Reply? ==> Saved(s, binding, turn, next, before, after)
      requires s.phase !in {Patching, Checkpoint} || !turn.work.Reply? ==>
        && after == before && (next.Continue? ==> next.binding == binding && next.state.phase != Completed)
        && (Goes(turn, s, binding) && Open(s, before) ==>
              next.Continue? && next.state.phase == Onward(s.phase) && next.state.failedActions == s.failedActions)
      ensures Went(s, binding, turn, next, before, after)
    {
      if s.phase == Patching && turn.work.Reply? {
        WentToTest(s, binding, turn, next, before, after);
      } else if s.phase == Checkpoint && turn.work.Reply? {
        WentToEnd(s, binding, turn, next, before, after);
      } else {
        WentInPlace(s, binding, turn, next, before);
      }
    }

    /** One turn of the loop: the dispatch, and the next state stored. */
    method Step(s: State, binding: Binding, turn: Turn, ghost first: Binding) returns (next: Next)
      requires AtHead(s, binding, first) && RowNames(store.runs, runID, binding)
      modifies this`calls, this`checkpoints, store
      ensures Valid() && Trace(Log(), first) && old(Log()) <= Log() && old(checkpoints) <= checkpoints
      ensures next.Continue? ==>
        && AtHead(next.state, next.binding, first) && RowNames(store.runs, runID, next.binding)
        && 1 <= Remaining(next.state, maxRetries) < Remaining(s, maxRetries)
      ensures next.Stop? && (next.state.phase == Completed || next.err == NoError) ==>
        s.phase == Completed && next.state == s && Sound(s)
      ensures Terminal(s.phase) ==>
        next.Stop? && next.state == s && Still() && (s.phase == Completed ==> next.err == NoError)
      ensures old(Doomed(first)) ==> Doomed(first) && next.Stop? && next.state.phase != Completed
      ensures runID in store.runs
      ensures next.Continue? ==>
        Kept(next, old(Durable()), Durable()) && (s.phase != Patching ==> next.binding == binding)
      ensures EndsInOrder(s, turn, next, first, old(checkpoints))
      ensures Goes(turn, s, binding) && Open(s, old(Durable())) ==>
        next.Continue? && next.state.phase == Onward(s.phase) && next.state.failedActions == s.failedActions
      ensures Goes(turn, s, binding) && old(CheckpointTaken(s, checkpoints)) ==>
        next == Stop(NO_STATE, Rejected) && Log() == old(Log()) && checkpoints == old(checkpoints)
    {
      hide Bounded, Earned, LastState, Trace, Remaining, Follows, Acceptable, Continues, EndsInOrder, Moved,
        Saved, Goes;
      next := Dispatch(s, binding, turn, first);
      DispatchWent(s, binding, turn, next, old(Durable()), Durable());
      GoesReplies(turn, s, binding);
      if turn.work.Reply? {
        TakenIsRejected(s, binding, turn, next, old(Durable()), Durable());
      }
      if next.Stop? {
        return;
      }
      RemainingBounds(next.state, maxRetries);
      StepContinues(s, next.state, binding);
      var ok := Persist(next.state, turn.stateWrite, first);
      if !ok {
        next := Stop(NO_STATE, Rejected);
      }
      UnsteadyEnd(s, turn, next, first, old(checkpoints));
    }

    /** The checkpoint of the stored state has been saved, but not the state after
        it: the process died, or a write failed, in between. */
    predicate Stuck(binding: Binding)
      reads this, store
    {
      var s := LastState(Log(), binding);
      s.phase == Checkpoint && CheckpointID(s) in checkpoints
    }

    /** The run has failed, waits for a human, or is stuck. */
    predicate Doomed(binding: Binding)
      reads this, store
    {
      Stuck(binding) || LastState(Log(), binding).phase in {Failed, HumanCheckpoint}
    }

    /** The run is there, its row names the binding, and its log loads under it. */
    ghost predicate MayResume(binding: Binding)
      reads store
    {
      Resumable(store.runs, runID, Log(), binding)
    }

    ghost predicate IsLost()
      reads store
    {
      Lost(store.runs, runID, Log())
    }

    /** Run. Main results, over any sequence of runs, crashes and restarts: what is
        stored stays sound; the loop is entered exactly when the run may be resumed
        under the binding, and comes round at most 5 * maxRetries + 9 times; a
        completed state is verified on its binding; a run in which nothing fails
        completes, unless its checkpoint's record exists already; a run that no
        binding resumes stays lost; what is doomed stays so and never completes; and
        after a terminal state nothing changes any more. */
    method Run(binding: Binding, world: World) returns (state: State, err: Err, turns: nat)
      requires Valid()
      modifies this`calls, this`checkpoints, store
      ensures Valid() && old(Log()) <= Log() && old(checkpoints) <= checkpoints
      ensures turns <= 5 * maxRetries + 9
      ensures err == NoError ==> state.phase == Completed
      ensures state.phase == Completed ==> Earned(state, calls)
      ensures !old(MayResume(binding)) ==> err == Rejected && turns == 0 && Still()
      ensures turns > 0 ==>
        && binding.repositoryID != "" && binding.candidateSnapshot != "" && binding.environmentID != ""
        && binding.policyVersion != "" && |old(Log())| < 10_000
        && runID in old(store.runs) && RowBinding(old(store.runs)[runID]) == binding
      ensures old(MayResume(binding)) && ReadsAll(world) ==> (turns > 0 <==> !world.turns(0).cancelled)
      ensures old(MayResume(binding)) && ReadsAll(world) && turns == 0 ==>
        err == Cancelled && state == old(LastState(Log(), binding)) && Still()
      ensures turns > 0 && old(Terminal(LastState(Log(), binding).phase)) ==> state == old(LastState(Log(), binding))
      ensures old(MayResume(binding)) && ReadsAll(world) ==>
        Progress(old(LastState(Log(), binding)), binding, world, state, err, old(checkpoints))
        && Settles(binding, world, state, err)
      ensures old(MayResume(binding)) ==> Trace(Log(), binding) && (AllBound(Log(), binding) || LoadsNoMore(Log()))
      ensures old(IsLost()) ==> IsLost()
      ensures old(Doomed(binding)) ==> Doomed(binding) && state.phase != Completed
      ensures forall b | old(Doomed(b)) :: Doomed(b) && state.phase != Completed
      ensures forall b | old(Terminal(LastState(Log(), b).phase)) :: Still()
    {
      hide Bounded, Earned, LastState, Trace, AllBound, LoadsNoMore, CheckpointID, Progress, Settles;
      turns := 0;
      BoundIsTrace(Log(), binding);
      if !ValidBinding(binding) {
        return NO_STATE, Rejected, turns;
      }
      if !world.rowRead {
        return NO_STATE, Rejected, turns;
      }
      if runID !in store.runs || !MatchesRun(store.runs[runID], binding) {
        return NO_STATE, Rejected, turns;
      }
      var loaded := Load(binding, world.pageRead);
      if loaded.None? {
        return NO_STATE, Rejected, turns;
      }
      state := loaded.value;
      BoundLastState(Log(), binding);
      ghost var before := Log();
      state, err, turns := Loop(state, binding, world);
      BoundOrLost(Log(), binding);
      forall b | LastState(before, b).phase != Inspect
        ensures LastState(before, b) == LastState(before, binding) && LastState(Log(), b) == LastState(Log(), binding)
      {
        SameHead(before, Log(), b, binding);
      }
    }

    /** A run from `start` in which nothing fails and every plan can be taken ends
        completed, with the row on the completed state's binding and its status to
        match, or else finds the record of its checkpoint taken. */
    ghost predicate Progress(start: State, first: Binding, world: World, state: State, err: Err, saved: set<string>)
      reads this, store
    {
      Helped(start, first, world) ==> Finished(first, state, err, saved)
    }

    predicate Finished(first: Binding, state: State, err: Err, saved: set<string>)
      reads this, store
    {
      if CheckpointTaken(LastState(Log(), first), saved) then err == Rejected && checkpoints == saved
      else
        && err == NoError && state.phase == Completed && LastState(Log(), first) == state
        && state.checkpointID !in saved
        && RowNames(store.runs, runID, state.binding) && store.runs[runID].status == "completed"
    }

    /** A run in which no write fails and nothing dies, whatever is refused in it, ends
        in a terminal state that is stored; only a hypothesis that is not taken and a
        checkpoint on record already end it where it is. */
    ghost predicate Settles(first: Binding, world: World, state: State, err: Err)
      reads this, store
    {
      (forall n :: Steady(world.turns(n))) ==>
        || (Terminal(state.phase) && LastState(Log(), first) == state)
        || (err == Rejected
            && (LastState(Log(), first).phase == Inspect || CheckpointTaken(LastState(Log(), first), checkpoints)))
    }

    lemma {:induction false} EndSettles(s: State, world: World, n: nat, next: Next, first: Binding, saved: set<string>)
      requires EndsInOrder(s, world.turns(n), next, first, saved) && next.Stop?
      requires saved <= checkpoints && runID in store.runs
      ensures Settles(first, world, next.state, next.err)
    {
      hide LastState, Steady;
    }

    lemma {:induction false} CancelledSettles(world: World, n: nat, first: Binding, state: State, err: Err)
      requires world.turns(n).cancelled
      ensures Settles(first, world, state, err)
    {
      assert !Steady(world.turns(n));
    }

    ghost predicate Helped(start: State, first: Binding, world: World)
    {
      && !Terminal(start.phase) && (start.phase == DiagnoseRetry ==> start.retryCount < maxRetries)
      && forall n :: Succeeds(world.turns(n)) && Offers(world.turns(n), first, start.failedActions)
    }

    /** Where a run in which nothing fails has got to. */
    predicate OnCourse(start: State, first: Binding, state: State, binding: Binding, before: Tables, now: Tables)
    {
      && state.failedActions == start.failedActions && state.phase !in {Failed, HumanCheckpoint}
      && (state.phase in {Inspect, Hypothesis, Planning, DiagnoseRetry} ==> binding == first)
      && (state.phase == DiagnoseRetry ==> state.retryCount < maxRetries)
      && (state.phase != Completed ==> now.saved == before.saved)
      && (state.phase == Completed ==>
            && state.checkpointID !in before.saved && runID in now.runs && now.runs[runID].status == "completed")
    }

    lemma {:induction false} StartsOnCourse(start: State, first: Binding, world: World, tables: Tables)
      ensures Helped(start, first, world) ==> OnCourse(start, first, start, first, tables, tables)
    {
    }

    lemma {:induction false} TurnHelps(start: State, first: Binding, world: World, n: nat, state: State,
                                       binding: Binding, before: Tables, now: Tables)
      requires Helped(start, first, world) && OnCourse(start, first, state, binding, before, now)
      requires runID in now.runs
      ensures !world.turns(n).cancelled && (!Terminal(state.phase) ==> Goes(world.turns(n), state, binding))
      ensures state.phase != Completed ==>
        !Terminal(state.phase) && now.saved == before.saved && (Open(state, now) || CheckpointTaken(state, now.saved))
      ensures state.phase == Completed ==>
        state.checkpointID !in before.saved && runID in now.runs && now.runs[runID].status == "completed"
    {
      assert Succeeds(world.turns(n)) && Offers(world.turns(n), first, start.failedActions);
      hide Succeeds, Offers;
      NotCancelled(world.turns(n));
    }

    lemma {:induction false} StaysOnCourse(start: State, first: Binding, state: State, binding: Binding, next: Next,
                                           before: Tables, middle: Tables, now: Tables)
      requires OnCourse(start, first, state, binding, before, middle) && !Terminal(state.phase)
      requires next.Continue? && next.state.phase == Onward(state.phase)
      requires next.state.failedActions == state.failedActions && Kept(next, middle, now)
      requires state.phase != Patching ==> next.binding == binding
      ensures OnCourse(start, first, next.state, next.binding, before, now)
    {
    }

    /** The loop of Run from a loaded state on. */
    method Loop(start: State, first: Binding, world: World) returns (state: State, err: Err, turns: nat)
      requires AtHead(start, first, first) && RowNames(store.runs, runID, first)
      modifies this`calls, this`checkpoints, store
      ensures Valid() && Trace(Log(), first) && old(Log()) <= Log() && old(checkpoints) <= checkpoints
      ensures turns <= 5 * maxRetries + 9
      ensures err == NoError ==> state.phase == Completed
      ensures state.phase == Completed ==> Earned(state, calls)
      ensures old(Doomed(first)) ==> Doomed(first) && state.phase != Completed
      ensures Terminal(start.phase) ==> Still()
      ensures turns > 0 <==> !world.turns(0).cancelled
      ensures turns == 0 ==> err == Cancelled && state == start && Still()
      ensures turns > 0 && Terminal(start.phase) ==> state == start
      ensures Progress(start, first, world, state, err, old(checkpoints)) && Settles(first, world, state, err)
    {
      assert Doomed(first) ==> start.phase != Completed;
      hide Bounded, Earned, Remaining, LastState, Trace, Follows, Goes, Open, Helped, Doomed, OnCourse, Kept,
        Onward, Settles;
      turns := 0;
      var binding := first;
      state := start;
      RemainingBounds(state, maxRetries);
      StartsOnCourse(start, first, world, Durable());
      while true
        invariant AtHead(state, binding, first) && old(Log()) <= Log() && old(checkpoints) <= checkpoints
        invariant 1 <= Remaining(state, maxRetries) && turns + Remaining(state, maxRetries) <= 5 * maxRetries + 9
        invariant old(Doomed(first)) ==> Doomed(first) && turns == 0
        invariant Terminal(start.phase) ==> Still() && state == start
        invariant turns == 0 ==> Still() && state == start
        invariant turns > 0 ==> !world.turns(0).cancelled
        invariant RowNames(store.runs, runID, binding)
        invariant Helped(start, first, world) ==> OnCourse(start, first, state, binding, old(Durable()), Durable())
        decreases Remaining(state, maxRetries)
      {
        if world.turns(turns).cancelled {
          HelpedGoesOn(start, first, world, turns);
          CancelledSettles(world, turns, first, state, Cancelled);
          return state, Cancelled, turns;
        }
        var next := GuidedStep(state, binding, first, start, world, turns, old(Durable()));
        turns := turns + 1;
        if next.Stop? {
          return next.state, next.err, turns;
        }
        state, binding := next.state, next.binding;
      }
    }

    lemma {:induction false} HelpedGoesOn(start: State, first: Binding, world: World, n: nat)
      ensures Helped(start, first, world) ==> !world.turns(n).cancelled
    {
      if Helped(start, first, world) {
        assert Succeeds(world.turns(n));
      }
    }

    /** A step, and what it means for a run in which nothing fails. */
    method GuidedStep(s: State, binding: Binding, ghost first: Binding, ghost start: State, world: World, n: nat,
                      ghost before: Tables)
      returns (next: Next)
      requires AtHead(s, binding, first) && RowNames(store.runs, runID, binding)
      requires Helped(start, first, world) ==> OnCourse(start, first, s, binding, before, Durable())
      modifies this`calls, this`checkpoints, store
      ensures Valid() && Trace(Log(), first) && old(Log()) <= Log() && old(checkpoints) <= checkpoints
      ensures next.Continue? ==>
        && AtHead(next.state, next.binding, first) && RowNames(store.runs, runID, next.binding)
        && 1 <= Remaining(next.state, maxRetries) < Remaining(s, maxRetries)
      ensures next.Stop? && (next.state.phase == Completed || next.err == NoError) ==>
        s.phase == Completed && next.state == s && Sound(s)
      ensures Terminal(s.phase) ==> next.Stop? && next.state == s && Still()
      ensures old(Doomed(first)) ==> Doomed(first) && next.Stop? && next.state.phase != Completed
      ensures Helped(start, first, world) ==>
        if next.Continue? then OnCourse(start, first, next.state, next.binding, before, Durable())
        else Finished(first, next.state, next.err, before.saved)
      ensures next.Stop? ==> Settles(first, world, next.state, next.err)
    {
      hide EndsInOrder, Settles, Bounded, Earned, Remaining, LastState, Trace, Follows, Goes, Open, Helped, Doomed,
        OnCourse, Kept, Onward;
      if Helped(start, first, world) {
        TurnHelps(start, first, world, n, s, binding, before, Durable());
      }
      next := Step(s, binding, world.turns(n), first);
      if next.Stop? {
        EndSettles(s, world, n, next, first, old(checkpoints));
      }
      if Helped(start, first, world) && next.Continue? {
        StaysOnCourse(start, first, s, binding, next, before, old(Durable()), Durable());
      }
    }
  }
}
