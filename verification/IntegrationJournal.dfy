/** Applying a plan under a durable journal, and recovering it after a crash.
    Every system call may fail, and the process may die before or after any of
    them: a method that returns Crash leaves what is then on disk. */
module IntegrationJournal {
  import opened Options
  import opened FileTree
  import opened Integration

  datatype State = Prepared | Applying | Committed | Quarantined
  datatype Journal = Journal(state: State, cursor: int, steps: seq<Step>)

  datatype Io = Done | Failed | Crash
  datatype Outcome = Ok | Rejected | StaleFence | Crashed

  /** What becomes of one write of a record: what the caller sees, and whether it
      reached the disk, which it has when it succeeds. */
  datatype Fate = Fate(result: Io, written: bool)

  /** What becomes of the record writes of one integration: the first, the one after
      each step, the one that quarantines, and the last. */
  datatype Fates = Fates(start: Fate, step: nat -> Fate, quarantine: Fate, commit: Fate)

  ghost predicate AllWritten(fates: Fates)
  {
    && fates.start.result == fates.quarantine.result == fates.commit.result == Done
    && forall n :: fates.step(n).result == Done
  }

  /** The live tree and the number `k` of steps that have happened agree with a
      journal record: its cursor is `k` or one behind, and directories have
      been made for no step past the cursor. */
  ghost predicate CrashSafe(base: Tree, live: Tree, j: Journal, k: nat)
  {
    && 0 <= j.cursor && (k == j.cursor || k == j.cursor + 1)
    && Reached(base, j.steps, k, j.cursor + 1, live)
    && (j.state == Committed ==> k == j.cursor == |j.steps|)
  }

  /** How far recovery got from `before` to `after`: it only ever moves over
      steps whose path shows the after-digest. */
  ghost predicate Advanced(live: Tree, before: Journal, after: Journal)
  {
    && after.steps == before.steps && 0 <= before.cursor <= after.cursor <= |before.steps|
    && (forall i | before.cursor <= i < after.cursor ::
      StateAt(live, before.steps[i].path) == Known(before.steps[i].after))
    && (after.state == Committed ==> after.cursor == |before.steps|)
    && (after.state == Quarantined ==> after.cursor < |before.steps| && ShowsAnother(live, before.steps[after.cursor]))
  }

  /** The record recovery leaves when no system call fails. */
  ghost predicate Settled(live: Tree, j: Journal, outcome: Outcome)
  {
    match j.state
    case Committed => outcome == Ok
    case Quarantined => outcome == Rejected
    case _ => outcome == Rejected && 0 <= j.cursor < |j.steps| && StateAt(live, j.steps[j.cursor].path) == Unreadable
  }

  /** Recovery of this record succeeds: it is committed, or every step that is not
      recorded yet shows its result. */
  ghost predicate Opens(live: Tree, j: Journal)
  {
    j.state == Committed || (
      && j.state in {Prepared, Applying} && ValidSteps(j.steps) && 0 <= j.cursor <= |j.steps|
      && forall i | j.cursor <= i < |j.steps| :: StateAt(live, j.steps[i].path) == Known(j.steps[i].after))
  }

  lemma {:induction false} SettledIfOpens(live: Tree, before: Journal, after: Journal, outcome: Outcome)
    requires before.state in {Prepared, Applying} && ValidSteps(before.steps) && 0 <= before.cursor <= |before.steps|
    requires Advanced(live, before, after) && Settled(live, after, outcome)
    ensures outcome == Ok <==> Opens(live, before)
  {
    hide StateAt, ValidSteps;
    var k := after.cursor;
    if after.state != Committed && k < |before.steps| {
      assert before.cursor <= k && StateAt(live, before.steps[k].path) != Known(before.steps[k].after);
    }
  }

  /** The step's path is readable and does not show the step's result. */
  ghost predicate ShowsAnother(live: Tree, step: Step)
  {
    StateAt(live, step.path).Known? && StateAt(live, step.path).digest != step.after
  }

  /** The tree with the missing directories above the path made, as far as
      their names end before position `n`. */
  ghost function MadeUpTo(t: Tree, path: string, n: nat): Tree
    requires n <= |path|
  {
    if n == 0 then t
    else
      var u := MadeUpTo(t, path, n - 1);
      if path[n - 1] == '/' && path[..n - 1] !in u then u[path[..n - 1] := Dir] else u
  }

  lemma {:induction false} NothingMadeYet(t: Tree, path: string)
    ensures MadeUpTo(t, path, 0) == t
  {
  }

  lemma {:induction false} OneMoreMade(t: Tree, path: string, i: nat)
    requires i < |path|
    ensures var u := MadeUpTo(t, path, i);
      MadeUpTo(t, path, i + 1) == if path[i] == '/' && path[..i] !in u then u[path[..i] := Dir] else u
  {
  }

  lemma {:induction false} MadeUpToHas(t: Tree, path: string, n: nat, p: string)
    requires n <= |path|
    ensures p in MadeUpTo(t, path, n) <==> p in t || (IsAncestor(p, path) && |p| < n)
    ensures p in MadeUpTo(t, path, n) ==> MadeUpTo(t, path, n)[p] == if p in t then t[p] else Dir
    decreases n
  {
    if n > 0 {
      MadeUpToHas(t, path, n - 1, p);
      if |p| == n - 1 && IsAncestor(p, path) {
        assert p == path[..n - 1];
      }
    }
  }

  lemma {:induction false} MadeAll(t: Tree, path: string)
    ensures MadeUpTo(t, path, |path|) == WithParents(t, path)
  {
    forall p ensures p in MadeUpTo(t, path, |path|) <==> p in WithParents(t, path) {
      MadeUpToHas(t, path, |path|, p);
    }
    forall p | p in WithParents(t, path) ensures MadeUpTo(t, path, |path|)[p] == WithParents(t, path)[p] {
      MadeUpToHas(t, path, |path|, p);
    }
  }

  // ------------------------------------------------------ trees within a step

  lemma {:induction false} QuarantinedIsCrashSafe(base: Tree, live: Tree, j: Journal, k: nat)
    requires CrashSafe(base, live, j, k) && j.state != Committed
    ensures CrashSafe(base, live, j.(state := Quarantined), k)
  {
  }

  /** Every directory above the path is there, or is missing and may be made. */
  predicate Passable(t: Tree, path: string, create: bool)
  {
    forall a | a in Ancestors(path) :: if a in t then t[a] == Dir else create
  }

  /** Nothing but directories above the step's path has changed. */
  ghost predicate Partway(t: Tree, step: Step, u: Tree)
  {
    WellFormed(u) && AllFiles(u) == AllFiles(t) && OnlyAddsDirectories(t, step, u)
  }

  ghost predicate HasEffect(t: Tree, step: Step, u: Tree)
  {
    WellFormed(u) && AllFiles(u) == Effect(AllFiles(t), step) && OnlyAddsDirectories(t, step, u)
  }

  ghost predicate OnlyAddsDirectories(t: Tree, step: Step, u: Tree)
  {
    && (forall p | p in t && t[p] == Dir :: p in u && u[p] == Dir)
    && (forall p | p in u && u[p] == Dir ::
      (p in t && t[p] == Dir) || (step.operation != Delete && p in Ancestors(step.path)))
  }

  lemma {:induction false} PartwayAtFirst(t: Tree, step: Step)
    requires WellFormed(t)
    ensures Partway(t, step, t)
  {
  }

  lemma {:induction false} ParentsPartway(t: Tree, step: Step)
    requires WellFormed(t) && step.operation != Delete
    requires forall a | a in Ancestors(step.path) && a in t :: t[a] == Dir
    ensures forall n | 0 <= n <= |step.path| :: Partway(t, step, MadeUpTo(t, step.path, n))
  {
    forall n | 0 <= n <= |step.path| ensures Partway(t, step, MadeUpTo(t, step.path, n)) {
      var u := MadeUpTo(t, step.path, n);
      forall p
        ensures p in u <==> p in t || (IsAncestor(p, step.path) && |p| < n)
        ensures p in u ==> u[p] == if p in t then t[p] else Dir
      {
        MadeUpToHas(t, step.path, n, p);
      }
      forall p, a | p in u && a in Ancestors(p) ensures a in u && u[a] == Dir {
        if p !in t {
          AncestorTransitive(a, p, step.path);
        }
      }
    }
  }

  lemma {:induction false} EffectOfDelete(t: Tree, step: Step)
    requires WellFormed(t) && step.operation == Delete && step.path in t && t[step.path].Regular?
    ensures HasEffect(t, step, t - {step.path})
  {
    FileRemoved(t, step.path);
  }

  lemma {:induction false} EffectOfWrite(t: Tree, step: Step)
    requires WellFormed(t) && step.operation != Delete && (step.path in t ==> t[step.path].Regular?)
    requires forall a | a in Ancestors(step.path) && a in t :: t[a] == Dir
    ensures HasEffect(t, step, WithParents(t, step.path)[step.path := Regular(File(step.blob, Permissions(step.mode)))])
  {
    ParentsKeepFiles(t, step.path);
    FileReplaced(WithParents(t, step.path), step.path, File(step.blob, Permissions(step.mode)));
  }

  lemma {:induction false} MoreMadeFor(steps: seq<Step>, m: nat, n: nat)
    requires m <= n
    ensures forall p | MadeFor(steps, m, p) :: MadeFor(steps, n, p)
  {
    forall p | MadeFor(steps, m, p) ensures MadeFor(steps, n, p) {
      var i :| 0 <= i < m && i < |steps| && steps[i].operation != Delete && p in Ancestors(steps[i].path);
    }
  }

  lemma {:induction false} ReachedWithMore(base: Tree, steps: seq<Step>, k: nat, m: nat, n: nat, u: Tree)
    requires Reached(base, steps, k, m, u) && m <= n
    ensures Reached(base, steps, k, n, u)
  {
    MoreMadeFor(steps, m, n);
  }

  lemma {:induction false} AppliedIsCrashSafe(base: Tree, steps: seq<Step>, k: nat, live: Tree, state: State)
    requires WellFormed(base) && k <= |steps| && AppliedAll(base, steps, k) == Option.Some(live)
    requires state == Committed ==> k == |steps|
    ensures CrashSafe(base, live, Journal(state, k, steps), k)
  {
    AppliedAllReaches(base, steps, k);
    ReachedWithMore(base, steps, k, k, k + 1, live);
  }

  /** A step that is done is crash safe under the record before and after it. */
  lemma {:induction false} DoneIsCrashSafe(base: Tree, j: Journal, live: Tree)
    requires WellFormed(base) && 0 <= j.cursor < |j.steps| && j.state != Committed
    requires AppliedAll(base, j.steps, j.cursor + 1) == Option.Some(live)
    ensures CrashSafe(base, live, j, j.cursor + 1)
    ensures CrashSafe(base, live, Journal(Applying, j.cursor + 1, j.steps), j.cursor + 1)
  {
    AppliedAllReaches(base, j.steps, j.cursor + 1);
    ReachedWithMore(base, j.steps, j.cursor + 1, j.cursor + 1, j.cursor + 2, live);
  }

  lemma {:induction false} DirectoriesOfStep(base: Tree, steps: seq<Step>, k: nat, t: Tree, u: Tree)
    requires k < |steps| && Reached(base, steps, k, k, t) && OnlyAddsDirectories(t, steps[k], u)
    ensures forall p | p in base && base[p] == Dir :: p in u && u[p] == Dir
    ensures forall p | p in u && u[p] == Dir :: (p in base && base[p] == Dir) || MadeFor(steps, k + 1, p)
  {
    forall p | p in u && u[p] == Dir ensures (p in base && base[p] == Dir) || MadeFor(steps, k + 1, p) {
      if p in t && t[p] == Dir {
        MoreMadeFor(steps, k, k + 1);
      } else {
        assert p in Ancestors(steps[k].path);
      }
    }
  }

  /** Dying inside the step at the cursor leaves a tree that is crash safe. */
  lemma {:induction false} WithinStep(base: Tree, j: Journal, t: Tree, u: Tree) returns (k: nat)
    requires 0 <= j.cursor < |j.steps| && j.state != Committed && Reached(base, j.steps, j.cursor, j.cursor, t)
    requires Partway(t, j.steps[j.cursor], u) || HasEffect(t, j.steps[j.cursor], u)
    ensures CrashSafe(base, u, j, k)
  {
    DirectoriesOfStep(base, j.steps, j.cursor, t, u);
    k := if Partway(t, j.steps[j.cursor], u) then j.cursor else j.cursor + 1;
  }

  lemma {:induction false} AppliedIsWellFormed(base: Tree, steps: seq<Step>, k: nat)
    requires WellFormed(base) && k <= |steps| && AppliedAll(base, steps, k).Some?
    ensures WellFormed(AppliedAll(base, steps, k).value)
  {
    AppliedAllReaches(base, steps, k);
  }

  lemma {:induction false} AfterStep(base: Tree, j: Journal, t: Tree, u: Tree, ok: bool) returns (k: nat)
    requires WellFormed(base) && 0 <= j.cursor < |j.steps| && j.state != Committed
    requires AppliedAll(base, j.steps, j.cursor) == Option.Some(t)
    requires Partway(t, j.steps[j.cursor], u) || HasEffect(t, j.steps[j.cursor], u)
    requires ok ==> Applied(t, j.steps[j.cursor]) == Option.Some(u)
    ensures CrashSafe(base, u, j, k)
    ensures ok ==> k == j.cursor + 1 && AppliedAll(base, j.steps, k) == Option.Some(u)
    ensures AppliedAll(base, j.steps, |j.steps|).Some? ==> Applied(t, j.steps[j.cursor]).Some?
  {
    NextApplied(base, j.steps, j.cursor, t);
    if ok {
      k := j.cursor + 1;
      DoneIsCrashSafe(base, j, u);
    } else {
      AppliedAllReaches(base, j.steps, j.cursor);
      k := WithinStep(base, j, t, u);
    }
  }

  lemma {:induction false} NextApplied(base: Tree, steps: seq<Step>, k: nat, t: Tree)
    requires k < |steps| && AppliedAll(base, steps, k) == Option.Some(t)
    ensures AppliedAll(base, steps, k + 1) == Applied(t, steps[k])
    ensures AppliedAll(base, steps, |steps|).Some? ==> Applied(t, steps[k]).Some?
  {
    hide Applied;
    var next := AppliedAll(base, steps, k + 1);
    assert next == Applied(t, steps[k]);
    if AppliedAll(base, steps, |steps|).Some? {
      AppliedPrefix(base, steps, k + 1, |steps|);
      assert next.Some?;
    }
  }

  /** The state that a record ends in when the call ends with this outcome. */
  predicate Closes(outcome: Outcome, state: State)
  {
    match outcome
    case Ok => state == Committed
    case Crashed => false
    case _ => state == Quarantined
  }

  /** The steps up to the record's cursor were applied, and the one at the cursor
      could not be: its path did not show the state before it, which is reported as
      a stale fence, or its result is not the one planned. */
  ghost predicate StoppedAt(base: Tree, j: Journal, outcome: Outcome)
  {
    && j.state == Quarantined && 0 <= j.cursor < |j.steps| && AppliedAll(base, j.steps, j.cursor).Some?
    && var step, reached := j.steps[j.cursor], AppliedAll(base, j.steps, j.cursor).value;
       && Applied(reached, step).None?
       && (outcome == StaleFence <==> StateAt(reached, step.path) != Known(step.before))
  }

  lemma {:induction false} StoppedIsNotApplied(base: Tree, j: Journal, outcome: Outcome)
    requires StoppedAt(base, j, outcome)
    ensures AppliedAll(base, j.steps, |j.steps|).None?
  {
    hide Applied, StateAt;
    if AppliedAll(base, j.steps, |j.steps|).Some? {
      AppliedPrefix(base, j.steps, j.cursor + 1, |j.steps|);
    }
  }

  class Repository {
    var live: Tree
    var journals: map<string, Journal>   // the records on disk

    constructor (live: Tree)
      requires WellFormed(live)
      ensures this.live == live && journals == map[]
    {
      this.live := live;
      journals := map[];
    }

    /** Any system call: it may fail, and the process may die around it. */
    method Call() returns (r: Io)
    {
      if * { r := Done; } else if * { r := Failed; } else { r := Crash; }
    }

    /** writeJSONAtomic: the rename either happened or not, whatever is returned. */
    method WriteJournal(id: string, j: Journal, fate: Fate) returns (r: Io)
      modifies this`journals
      ensures r == fate.result
      ensures journals == if r == Done || fate.written then old(journals)[id := j] else old(journals)
    {
      if fate.result == Done || fate.written {
        journals := journals[id := j];
      }
      return fate.result;
    }

    method AnyFate() returns (fate: Fate)
    {
      var r := Call();
      var written: bool := *;
      return Fate(r, written);
    }

    /** openParentDirectory: walks down from the root, making missing directories. */
    method OpenParent(path: string, create: bool) returns (r: Io, ghost faulted: bool)
      modifies this`live
      ensures !faulted && Passable(old(live), path, create) ==> r == Done
      ensures live == old(live) || (create && exists n :: 0 <= n <= |path| && live == MadeUpTo(old(live), path, n))
      ensures r == Done ==> !faulted
      ensures r == Crash ==> faulted
      ensures r == Done && create ==> live == WithParents(old(live), path)
      ensures r == Done ==> forall a | a in Ancestors(path) :: a in live && live[a] == Dir
      ensures r == Done && !create ==> live == old(live)
    {
      hide MadeUpTo;
      var i := 0;
      faulted := false;
      NothingMadeYet(live, path);
      while i < |path|
        invariant 0 <= i <= |path| && !faulted
        invariant live == if create then MadeUpTo(old(live), path, i) else old(live)
        invariant forall k | 0 <= k < i && path[k] == '/' :: path[..k] in live && live[path[..k]] == Dir
      {
        OneMoreMade(old(live), path, i);
        if path[i] == '/' {
          assert path[..i] in Ancestors(path);
          MadeUpToHas(old(live), path, i, path[..i]);
          r, faulted := OpenPart(path[..i], create);
          if r != Done {
            assert live == old(live) || live == MadeUpTo(old(live), path, i)
              || live == MadeUpTo(old(live), path, i + 1);
            return;
          }
        }
        i := i + 1;
      }
      MadeAll(old(live), path);
      assert forall a | a in Ancestors(path) :: a == path[..|a|] && path[|a|] == '/';
      r := Done;
    }

    /** One component of the walk: open it, or make it and open it. */
    method OpenPart(part: string, create: bool) returns (r: Io, ghost faulted: bool)
      modifies this`live
      ensures r == Done ==> !faulted
      ensures r == Crash ==> faulted
      ensures !faulted && (if part in old(live) then old(live)[part] == Dir else create) ==> r == Done
      ensures live == old(live) || (create && part !in old(live) && live == old(live)[part := Dir])
      ensures r == Done ==> part in live && live[part] == Dir
    {
      r := Call();
      faulted := r != Done;
      if r != Done {
        return;
      }
      if part !in live {
        if !create {
          r := Failed;
          return;
        }
        live := live[part := Dir];
        r := Call();
        faulted := r != Done;
      } else if live[part] != Dir {
        r := Failed;
      }
    }

    /** Several calls in a row, none of which touches a file of the tree:
        opening, filling, syncing and closing the temporary file. */
    method Calls(n: nat) returns (r: Io)
    {
      r := Done;
      var i := 0;
      while i < n && r == Done {
        r := Call();
        i := i + 1;
      }
    }

    /** applyIntegrationStep. */
    method ApplyStep(step: Step) returns (outcome: Outcome, ghost faulted: bool)
      requires WellFormed(live)
      modifies this`live
      ensures Partway(old(live), step, live) || HasEffect(old(live), step, live)
      ensures outcome == Ok ==> Applied(old(live), step) == Option.Some(live) && !faulted
      ensures outcome == Crashed ==> faulted
      ensures !faulted ==> (outcome == Ok <==> Applied(old(live), step).Some?)
      ensures !faulted && ValidRelativePath(step.path) && step.operation != Unknown ==>
        (outcome == StaleFence <==> StateAt(old(live), step.path) != Known(step.before))
    {
      faulted := false;
      PartwayAtFirst(live, step);
      if !ValidRelativePath(step.path) || step.operation == Unknown {
        return Rejected, faulted;
      }
      var r := Call();
      if r != Done {
        return if r == Crash then Crashed else StaleFence, true;
      }
      if StateAt(live, step.path) != Known(step.before) {
        return StaleFence, faulted;
      }
      ReadableIsBelowDirectories(live, step.path);
      if step.operation == Delete {
        r, faulted := OpenParent(step.path, false);
        if r != Done {
          return if r == Crash then Crashed else Rejected, faulted;
        }
        r := Call();
        if r != Done {
          return if r == Crash then Crashed else Rejected, true;
        }
        if step.path !in live {
          return Rejected, faulted;
        }
        EffectOfDelete(live, step);
        live := live - {step.path};
      } else {
        if |step.blob| > MAX_BLOB {
          return Rejected, faulted;
        }
        r, faulted := OpenParent(step.path, true);
        ParentsPartway(old(live), step);
        if r != Done {
          return if r == Crash then Crashed else Rejected, faulted;
        }
        r := Calls(6);
        if r != Done {
          return if r == Crash then Crashed else Rejected, true;
        }
        EffectOfWrite(old(live), step);
        live := live[step.path := Regular(File(step.blob, Permissions(step.mode)))];
      }
      r := Calls(2);  // syncing the directory and reading the result back
      if r != Done {
        return if r == Crash then Crashed else Rejected, true;
      }
      if StateAt(live, step.path) != Known(step.after) {
        return Rejected, faulted;
      }
      return Ok, faulted;
    }

    /** ApplyIntegration. `authorized` stands for the lease, identity and plan
        digest checks, `baseMatches` for the comparison of tree snapshots, and
        `id` for a fresh journal id. The ghost result `k` counts the steps that
        have had their effect; `faulted` says that some call of a step failed, or
        some record could not be written. */
    method ApplyIntegration(id: string, steps: seq<Step>, authorized: bool, baseMatches: bool, fates: Fates)
      returns (outcome: Outcome, ghost k: nat, ghost faulted: bool)
      requires WellFormed(live) && id !in journals
      modifies this
      ensures journals - {id} == old(journals)
      ensures id !in journals ==> live == old(live)
      ensures id in journals ==>
        && journals[id].steps == steps && ValidSteps(steps) && authorized && baseMatches
        && CrashSafe(old(live), live, journals[id], k)
      ensures outcome == Ok ==>
        && id in journals && journals[id] == Journal(Committed, |steps|, steps)
        && AppliedAll(old(live), steps, |steps|) == Option.Some(live)
      // what is refused before a record is written
      ensures !authorized || !ValidSteps(steps) ==> outcome == Rejected && id !in journals
      ensures authorized && ValidSteps(steps) && !baseMatches ==> outcome == StaleFence && id !in journals
      // whatever fails in a step, its record ends as the call does
      ensures authorized && ValidSteps(steps) && baseMatches && AllWritten(fates) ==>
        id in journals && (outcome == Crashed || Closes(outcome, journals[id].state))
      // undisturbed, the plan is applied exactly when every step of it can be
      ensures !faulted && authorized && ValidSteps(steps) && baseMatches ==>
        && id in journals && (outcome == Ok <==> AppliedAll(old(live), steps, |steps|).Some?)
        && Closes(outcome, journals[id].state) && (outcome != Ok ==> StoppedAt(old(live), journals[id], outcome))
    {
      k, faulted := 0, false;
      var valid := CheckSteps(steps);
      if !authorized || !valid {
        return Rejected, k, faulted;
      }
      if !baseMatches {
        return StaleFence, k, faulted;
      }
      var j := Journal(Prepared, 0, steps);
      AppliedIsCrashSafe(live, steps, 0, live, Prepared);
      var r := WriteJournal(id, j, fates.start);
      if r != Done {
        return if r == Crash then Crashed else Rejected, k, true;
      }
      outcome, k, faulted := RunPlan(id, j, live, fates);
    }

    /** The loop of ApplyIntegration and the final record, once the journal has
        been started. */
    method RunPlan(id: string, start: Journal, ghost base: Tree, fates: Fates)
      returns (outcome: Outcome, ghost k: nat, ghost faulted: bool)
      requires WellFormed(base) && live == base && start.cursor == 0 && start.state == Prepared
      requires id in journals && journals[id] == start && ValidSteps(start.steps)
      modifies this
      ensures id in journals && journals - {id} == old(journals) - {id}
      ensures journals[id].steps == start.steps && CrashSafe(base, live, journals[id], k)
      ensures outcome == Ok ==>
        && journals[id] == Journal(Committed, |start.steps|, start.steps)
        && AppliedAll(base, start.steps, |start.steps|) == Option.Some(live)
      ensures AllWritten(fates) && outcome != Crashed ==> Closes(outcome, journals[id].state)
      ensures !faulted ==>
        && (outcome == Ok <==> AppliedAll(base, start.steps, |start.steps|).Some?)
        && Closes(outcome, journals[id].state) && (outcome != Ok ==> StoppedAt(base, journals[id], outcome))
    {
      hide CrashSafe, ValidSteps, WellFormed, Applied;
      k, faulted := 0, false;
      var j := start;
      while j.cursor < |j.steps|
        invariant 0 <= j.cursor <= |j.steps| && j.steps == start.steps && j.state in {Prepared, Applying}
        invariant id in journals && journals - {id} == old(journals) - {id} && journals[id] == j
        invariant !faulted && k == j.cursor && AppliedAll(base, j.steps, j.cursor) == Option.Some(live)
        decreases |j.steps| - j.cursor
      {
        j, outcome, k, faulted := Advance(id, j, base, fates.step(j.cursor), fates.quarantine);
        if outcome != Ok {
          if !faulted {
            StoppedIsNotApplied(base, journals[id], outcome);
          }
          return;
        }
      }
      AppliedIsCrashSafe(base, j.steps, k, live, j.state);
      AppliedIsCrashSafe(base, j.steps, k, live, Committed);
      j := j.(state := Committed);
      var r := WriteJournal(id, j, fates.commit);
      if r != Done {
        return if r == Crash then Crashed else Rejected, k, true;
      }
      return Ok, k, faulted;
    }

    /** One turn of the loop of ApplyIntegration: a step, then the record of it, or
        the record that the step failed. */
    method Advance(id: string, j: Journal, ghost base: Tree, record: Fate, quarantine: Fate)
      returns (next: Journal, outcome: Outcome, ghost k: nat, ghost faulted: bool)
      requires WellFormed(base) && id in journals && journals[id] == j && j.state in {Prepared, Applying}
      requires 0 <= j.cursor < |j.steps| && AppliedAll(base, j.steps, j.cursor) == Option.Some(live)
        && ValidSteps(j.steps)
      modifies this
      ensures id in journals && journals - {id} == old(journals) - {id}
      ensures journals[id].steps == j.steps && CrashSafe(base, live, journals[id], k)
      ensures outcome == Ok ==>
        && !faulted && journals == old(journals)[id := next] && next == Journal(Applying, j.cursor + 1, j.steps)
          && k == j.cursor + 1
        && AppliedAll(base, j.steps, k) == Option.Some(live)
      ensures record.result == quarantine.result == Done && outcome in {Rejected, StaleFence} ==>
        journals[id] == j.(state := Quarantined)
      ensures !faulted ==>
        && outcome != Crashed && (outcome == Ok <==> Applied(old(live), j.steps[j.cursor]).Some?)
        && (outcome != Ok ==> journals[id] == j.(state := Quarantined))
        && (outcome != Ok ==> StoppedAt(base, journals[id], outcome))
    {
      hide CrashSafe, AppliedAll, WellFormed, ValidSteps, Applied, StateAt;
      next := j;
      outcome, k, faulted := Happen(j, base);
      if outcome != Ok {
        if outcome != Crashed {
          next := j.(state := Quarantined);
          QuarantinedIsCrashSafe(base, live, j, k);
          var r := WriteJournal(id, next, quarantine);
          faulted := faulted || r != Done;
          if r == Crash {
            outcome := Crashed;
          }
        }
        return;
      }
      DoneIsCrashSafe(base, j, live);
      next := j.(state := Applying, cursor := j.cursor + 1);
      var r := WriteJournal(id, next, record);
      if r != Done {
        outcome, faulted := if r == Crash then Crashed else Rejected, true;
      }
    }

    /** The step at the journal's cursor, and what may have come of it. */
    method Happen(j: Journal, ghost base: Tree) returns (outcome: Outcome, ghost k: nat, ghost faulted: bool)
      requires WellFormed(base) && j.state in {Prepared, Applying} && ValidSteps(j.steps)
      requires 0 <= j.cursor < |j.steps| && AppliedAll(base, j.steps, j.cursor) == Option.Some(live)
      modifies this`live
      ensures CrashSafe(base, live, j, k)
      ensures outcome == Ok ==> k == j.cursor + 1 && AppliedAll(base, j.steps, k) == Option.Some(live) && !faulted
      ensures !faulted ==>
        && outcome != Crashed && (outcome == Ok <==> Applied(old(live), j.steps[j.cursor]).Some?)
        && (outcome != Ok ==> StoppedAt(base, j.(state := Quarantined), outcome))
    {
      AppliedIsWellFormed(base, j.steps, j.cursor);
      assert ValidStep(j.steps[j.cursor]);
      outcome, faulted := ApplyStep(j.steps[j.cursor]);
      k := AfterStep(base, j, old(live), live, outcome == Ok);
    }

    /** recoverJournal. It has no leave to write the live tree. */
    method RecoverJournal(id: string) returns (outcome: Outcome, ghost faulted: bool)
      requires id in journals
      modifies this`journals
      ensures id in journals && journals - {id} == old(journals) - {id}
      ensures var j := old(journals[id]);
        j.state !in {Prepared, Applying} || !ValidSteps(j.steps) || !(0 <= j.cursor <= |j.steps|) ==>
          outcome == Rejected && journals == old(journals)
      ensures var j := old(journals[id]);
        j.state in {Prepared, Applying} && ValidSteps(j.steps) && 0 <= j.cursor <= |j.steps| ==>
          && Advanced(live, j, journals[id])
          && (outcome == Ok ==> journals[id].state == Committed)
          && (!faulted ==> Settled(live, journals[id], outcome))
      ensures outcome == Ok ==> !faulted
      ensures !faulted && old(journals[id]).state != Committed ==> (outcome == Ok <==> Opens(live, old(journals[id])))
    {
      hide StateAt;
      faulted := false;
      var j := journals[id];
      var valid := CheckSteps(j.steps);
      if j.state != Prepared && j.state != Applying {
        return Rejected, faulted;
      }
      if !valid || j.cursor < 0 || j.cursor > |j.steps| {
        return Rejected, faulted;
      }
      var r;
      while j.cursor < |j.steps|
        invariant journals == old(journals)[id := j] && j.state in {Prepared, Applying}
        invariant Advanced(live, old(journals[id]), j) && !faulted
        decreases |j.steps| - j.cursor
      {
        var step := j.steps[j.cursor];
        r := Call();
        if r != Done {
          return if r == Crash then Crashed else Rejected, true;
        }
        var current := StateAt(live, step.path);
        if current == Unreadable {
          SettledIfOpens(live, old(journals[id]), j, Rejected);
          return Rejected, faulted;
        }
        if current.digest == step.after {
          j := j.(cursor := j.cursor + 1, state := Applying);
          var fate := AnyFate();
          r := WriteJournal(id, j, fate);
          if r != Done {
            return if r == Crash then Crashed else Rejected, true;
          }
        } else {
          // a path that shows the before-digest and one that shows neither are
          // treated alike
          j := j.(state := Quarantined);
          SettledIfOpens(live, old(journals[id]), j, Rejected);
          var fate := AnyFate();
          r := WriteJournal(id, j, fate);
          return if r == Crash then Crashed else Rejected, r != Done;
        }
      }
      j := j.(state := Committed);
      SettledIfOpens(live, old(journals[id]), j, Ok);
      var fate := AnyFate();
      r := WriteJournal(id, j, fate);
      return if r == Done then Ok else if r == Crash then Crashed else Rejected, r != Done;
    }

    /** recoverJournals, when the repository is opened: every record that is not
        committed is recovered, in whatever order the directory lists them, and
        the first one that cannot be is an error. A quarantined record is never
        touched again, so it keeps every later opening from succeeding. */
    method RecoverJournals() returns (outcome: Outcome, ghost faulted: bool)
      modifies this`journals
      ensures journals.Keys == old(journals.Keys)
      ensures outcome == Ok ==> forall id | id in journals :: journals[id].state == Committed
      ensures forall id | id in old(journals) && old(journals[id]).state in {Committed, Quarantined} ::
        journals[id] == old(journals[id])
      ensures (exists id :: id in old(journals) && old(journals[id]).state == Quarantined) ==> outcome != Ok
      ensures outcome == Ok ==> !faulted
      ensures !faulted ==> (outcome == Ok <==> forall id | id in old(journals) :: Opens(live, old(journals[id])))
    {
      hide Opens, Advanced, Settled, ValidSteps, StateAt;
      faulted := false;
      var remaining := journals.Keys;
      while remaining != {}
        invariant remaining <= journals.Keys == old(journals.Keys) && !faulted
        invariant forall id | id in remaining :: journals[id] == old(journals[id])
        invariant forall id | id in old(journals) && id !in remaining :: Opens(live, old(journals[id]))
        invariant forall id | id in journals && id !in remaining :: journals[id].state == Committed
        invariant forall id | id in old(journals) && old(journals[id]).state in {Committed, Quarantined} ::
          journals[id] == old(journals[id])
        decreases remaining
      {
        var id :| id in remaining;
        remaining := remaining - {id};
        var r := Call();  // reading the record
        if r != Done {
          return if r == Crash then Crashed else Rejected, true;
        }
        CommittedOpens(live, journals[id]);
        if journals[id].state != Committed {
          ghost var before := journals;
          outcome, faulted := RecoverJournal(id);
          OnlyOneChanged(before, journals, id);
          if outcome != Ok {
            return;
          }
        }
      }
      return Ok, faulted;
    }
  }

  lemma {:induction false} CommittedOpens(live: Tree, j: Journal)
    ensures j.state == Committed ==> Opens(live, j)
    ensures j.state == Quarantined ==> !Opens(live, j)
  {
  }

  lemma {:induction false} OnlyOneChanged(before: map<string, Journal>, after: map<string, Journal>, id: string)
    requires id in before && id in after && after - {id} == before - {id}
    ensures after.Keys == before.Keys
    ensures forall other | other in before && other != id :: after[other] == before[other]
  {
    forall other ensures other in after <==> other in before {
      if other != id {
        assert other in after - {id} <==> other in before - {id};
      }
    }
    forall other | other in before && other != id ensures after[other] == before[other] {
      assert (after - {id})[other] == (before - {id})[other];
    }
  }

  // ------------------------------------------------------ what recovery decides

  /** Main result: whenever the process died or a record could not be written,
      recovery of a built plan never moves the cursor past the steps that
      happened, so it may itself be interrupted and run again. When it
      completes without a failing call, it commits exactly when every step had
      happened. Otherwise the record stops at the number of steps that
      happened: quarantined, unless the next path is a directory, in which
      case the record is left as it is. */
  lemma {:induction false} RecoveryIsExact(base: Tree, candidate: Tree, live: Tree, before: Journal, k: nat,
                                           after: Journal, outcome: Outcome)
    requires Built(base, candidate, before.steps)
    requires CrashSafe(base, live, before, k) && before.state in {Prepared, Applying}
    requires Advanced(live, before, after)
    ensures CrashSafe(base, live, after, k)
    ensures Settled(live, after, outcome) ==>
      && after.cursor == k
      && (after.state == Committed <==> k == |before.steps|)
      && (after.state == Quarantined <==> k < |before.steps| && !IsDirectory(base, before.steps[k].path))
  {
    hide StateAt, Reached, Built, DigestAt;
    var steps := before.steps;
    if k < |steps| {
      StepIsReady(base, candidate, steps, k, before.cursor + 1, live);
      StepIsForTreeFile(base, candidate, steps, k);
    }
    assert after.cursor <= k;
    ReachedWithMore(base, steps, k, before.cursor + 1, after.cursor + 1, live);
    if k == before.cursor + 1 {
      StepIsDone(base, candidate, steps, k, live);
    }
  }

  /** A built plan over the tree it was built for stops, undisturbed, only as stale,
      and at its first path that is a directory of the tree. */
  lemma {:induction false} BuiltPlanStopsAtDirectory(base: Tree, candidate: Tree, j: Journal, outcome: Outcome)
    requires Built(base, candidate, j.steps) && StoppedAt(base, j, outcome)
    ensures outcome == StaleFence && IsDirectory(base, j.steps[j.cursor].path)
    ensures forall i | 0 <= i < j.cursor :: !IsDirectory(base, j.steps[i].path)
  {
    hide Built, Applied, StateAt, Reached;
    var steps, k := j.steps, j.cursor;
    AppliedAllReaches(base, steps, k) by {
      BuiltIsWellFormed(base, candidate, steps);
    }
    StepIsReady(base, candidate, steps, k, k, AppliedAll(base, steps, k).value);
    if !IsDirectory(base, steps[k].path) {
      StepApplies(base, candidate, steps, k, AppliedAll(base, steps, k).value);
    }
    forall i | 0 <= i < k ensures !IsDirectory(base, steps[i].path) {
      BuiltIsWellFormed(base, candidate, steps);
      AppliedPrefix(base, steps, i + 1, k);
      AppliedAllReaches(base, steps, i);
      StepIsReady(base, candidate, steps, i, i, AppliedAll(base, steps, i).value);
      AppliedWasReady(AppliedAll(base, steps, i).value, steps[i]);
    }
  }

  lemma {:induction false} BuiltIsWellFormed(base: Tree, candidate: Tree, steps: seq<Step>)
    requires Built(base, candidate, steps)
    ensures WellFormed(base)
  {
  }

  lemma {:induction false} AppliedWasReady(t: Tree, step: Step)
    requires Applied(t, step).Some?
    ensures StateAt(t, step.path) == Known(step.before)
  {
  }

  predicate IsDirectory(t: Tree, path: string)
  {
    path in t && t[path] == Dir
  }

  /** Main result: from any crash point of applying a built plan, the files are
      a prefix of the plan applied to the base: each path shows either the
      base's or the candidate's file, in plan order, and excluded paths are
      untouched. */
  lemma {:induction false} CrashShowsPlanPrefix(base: Tree, candidate: Tree, live: Tree, j: Journal, k: nat,
                                                path: string)
    requires Built(base, candidate, j.steps) && CrashSafe(base, live, j, k)
    ensures DigestAt(AllFiles(live), path) ==
      if Touched(j.steps, k, path) then DigestAt(TreeFiles(candidate), path) else DigestAt(AllFiles(base), path)
    ensures Excluded(path) ==> DigestAt(AllFiles(live), path) == DigestAt(AllFiles(base), path)
    ensures k == |j.steps| && !Excluded(path) ==> DigestAt(AllFiles(live), path) == DigestAt(TreeFiles(candidate), path)
  {
    PlanProgress(TreeFiles(base), TreeFiles(candidate), AllFiles(base), j.steps, k, path);
    if Touched(j.steps, k, path) {
      var i :| 0 <= i < k && j.steps[i].path == path;
      StepIsForTreeFile(base, candidate, j.steps, i);
    }
    if k == |j.steps| {
      FinalFile(base, candidate, j.steps, path);
    }
  }
}
