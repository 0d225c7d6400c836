/** Integration plans and what applying their steps means
    (internal/workspace/integration.go). */
module Integration {
  import opened Options
  import opened Ordering
  import opened FileTree

  const MAX_BLOB := 4 * 1024 * 1024

  datatype Operation = Create | Update | Delete | Unknown

  datatype Step = Step(path: string, operation: Operation, before: Digest, after: Digest, mode: nat, blob: Bytes)

  /** The permission bits that openat and fchmod take from a mode. */
  function Permissions(mode: nat): nat
  {
    mode % 512
  }

  /** What the file system calls of a step do to the files. */
  function Effect(files: Files, step: Step): Files
  {
    if step.operation == Delete then files - {step.path}
    else files[step.path := File(step.blob, Permissions(step.mode))]
  }

  /** The files after the first `k` steps. */
  function AfterSteps(files: Files, steps: seq<Step>, k: nat): Files
    requires k <= |steps|
    decreases k
  {
    if k == 0 then files else Effect(AfterSteps(files, steps, k - 1), steps[k - 1])
  }

  ghost predicate IncreasingPaths(steps: seq<Step>)
  {
    forall i, j | 0 <= i < j < |steps| :: Less(steps[i].path, steps[j].path)
  }

  /** validIntegrationPlan, as far as the steps are concerned. */
  ghost predicate ValidSteps(steps: seq<Step>)
  {
    && IncreasingPaths(steps)
    && forall i | 0 <= i < |steps| :: ValidStep(steps[i])
  }

  predicate ValidStep(step: Step)
  {
    && ValidRelativePath(step.path) && step.before != step.after
    && step.operation != Unknown && |step.blob| <= MAX_BLOB
    && (step.operation == Delete ==> step.blob == [])
  }

  /** The loop of validIntegrationPlan. */
  method CheckSteps(steps: seq<Step>) returns (valid: bool)
    ensures valid <==> ValidSteps(steps)
    ensures valid <==> IncreasingPaths(steps) && forall i | 0 <= i < |steps| ::
      && ValidRelativePath(steps[i].path) && steps[i].before != steps[i].after && |steps[i].blob| <= MAX_BLOB
      && steps[i].operation in {Create, Update, Delete} && (steps[i].operation == Delete ==> steps[i].blob == [])
  {
    var previous := "";
    var i := 0;
    while i < |steps|
      invariant 0 <= i <= |steps|
      invariant ValidSteps(steps[..i])
      invariant previous == if i == 0 then "" else steps[i - 1].path
    {
      if !ValidStep(steps[i]) || !Less(previous, steps[i].path) {
        return false;
      }
      forall k | 0 <= k < i ensures Less(steps[k].path, steps[i].path) {
        if k < i - 1 {
          assert Less(steps[..i][k].path, steps[..i][i - 1].path);
          LessTransitive(steps[k].path, previous, steps[i].path);
        }
      }
      assert steps[..i + 1] == steps[..i] + [steps[i]];
      previous := steps[i].path;
      i := i + 1;
    }
    assert steps[..i] == steps;
    return true;
  }

  // ------------------------------------------------------- what a plan contains

  /** The step that turns the base's file at its path into the candidate's. */
  ghost predicate StepFor(base: Files, candidate: Files, step: Step)
  {
    var p := step.path;
    && step.before == DigestAt(base, p) && step.after == DigestAt(candidate, p) && step.before != step.after
    && step.operation == (if p !in base then Create else if p !in candidate then Delete else Update)
    && (p in candidate ==> step.blob == candidate[p].content && step.mode == candidate[p].mode)
    && (p !in candidate ==> step.blob == [] && step.mode == 0)
  }

  /** The plan from base to candidate: one step for every path on which they
      differ, in path order. */
  ghost predicate DiffPlan(base: Files, candidate: Files, steps: seq<Step>)
  {
    && IncreasingPaths(steps)
    && (forall i | 0 <= i < |steps| :: StepFor(base, candidate, steps[i]))
    && (forall p | DigestAt(base, p) != DigestAt(candidate, p) :: exists i :: 0 <= i < |steps| && steps[i].path == p)
  }

  /** The paths of both maps in order. */
  method SortedPaths(base: Files, candidate: Files) returns (paths: seq<string>)
    ensures Increasing(paths)
    ensures forall x :: x in paths <==> x in base || x in candidate
  {
    paths := [];
    var remaining := base.Keys + candidate.Keys;
    while remaining != {}
      invariant remaining <= base.Keys + candidate.Keys
      invariant forall x :: x in paths <==> x in base.Keys + candidate.Keys - remaining
      invariant forall i, j | 0 <= i < j < |paths| :: paths[i] != paths[j]
      decreases remaining
    {
      var path :| path in remaining;
      assert path !in paths;
      remaining := remaining - {path};
      paths := paths + [path];
    }
    paths := SortStrings(paths);
  }

  /** The body of the step loop for a path on which the trees differ. */
  method BuildStep(base: Files, candidate: Files, path: string) returns (result: Option<Step>)
    requires DigestAt(base, path) != DigestAt(candidate, path)
    ensures result.None? <==> path in candidate && |candidate[path].content| > MAX_BLOB
    ensures result.Some? ==>
      result.value.path == path && StepFor(base, candidate, result.value) && |result.value.blob| <= MAX_BLOB
  {
    var step := Step(path, Unknown, DigestAt(base, path), DigestAt(candidate, path), 0, []);
    if path !in base {
      step := step.(operation := Create);
    } else if path !in candidate {
      step := step.(operation := Delete);
    } else {
      step := step.(operation := Update);
    }
    if path in candidate {
      if |candidate[path].content| > MAX_BLOB {
        return None;
      }
      step := step.(blob := candidate[path].content, mode := candidate[path].mode);
    }
    return Some(step);
  }

  ghost predicate Oversized(base: Files, candidate: Files, p: string)
  {
    p in candidate && DigestAt(base, p) != DigestAt(candidate, p) && |candidate[p].content| > MAX_BLOB
  }

  /** The steps are those of the differing paths among the first `n`; step `k`
      is about the path at position `at[k]`. */
  ghost predicate StepsSoFar(base: Files, candidate: Files, paths: seq<string>, n: nat, steps: seq<Step>, at: seq<nat>)
  {
    && n <= |paths| && |at| == |steps|
    && (forall k | 0 <= k < |steps| :: StepFor(base, candidate, steps[k]) && |steps[k].blob| <= MAX_BLOB
          && at[k] < n && steps[k].path == paths[at[k]])
    && (forall k, l | 0 <= k < l < |steps| :: at[k] < at[l])
    && (forall m | 0 <= m < n && DigestAt(base, paths[m]) != DigestAt(candidate, paths[m]) :: m in at)
  }

  lemma {:induction false} OneMoreStep(base: Files, candidate: Files, paths: seq<string>, n: nat, steps: seq<Step>,
                                       at: seq<nat>, step: Step)
    requires StepsSoFar(base, candidate, paths, n, steps, at) && n < |paths|
    requires StepFor(base, candidate, step) && |step.blob| <= MAX_BLOB && step.path == paths[n]
    ensures StepsSoFar(base, candidate, paths, n + 1, steps + [step], at + [n])
  {
    forall m | 0 <= m < n + 1 && DigestAt(base, paths[m]) != DigestAt(candidate, paths[m]) ensures m in at + [n] {
      if m < n {
        assert m in at;
      } else {
        assert (at + [n])[|at|] == m;
      }
    }
  }

  lemma {:induction false} NoStepFor(base: Files, candidate: Files, paths: seq<string>, n: nat, steps: seq<Step>,
                                     at: seq<nat>)
    requires StepsSoFar(base, candidate, paths, n, steps, at) && n < |paths|
    requires DigestAt(base, paths[n]) == DigestAt(candidate, paths[n])
    ensures StepsSoFar(base, candidate, paths, n + 1, steps, at)
  {
  }

  lemma {:induction false} StepsMakePlan(base: Files, candidate: Files, paths: seq<string>, steps: seq<Step>,
                                         at: seq<nat>)
    requires StepsSoFar(base, candidate, paths, |paths|, steps, at) && Increasing(paths)
    requires forall x :: x in paths <==> x in base || x in candidate
    ensures DiffPlan(base, candidate, steps) && forall p :: !Oversized(base, candidate, p)
  {
    forall p | DigestAt(base, p) != DigestAt(candidate, p)
      ensures (exists k :: 0 <= k < |steps| && steps[k].path == p) && !Oversized(base, candidate, p)
    {
      assert p in paths;
      var m :| 0 <= m < |paths| && paths[m] == p;
      var k :| 0 <= k < |at| && at[k] == m;
      assert steps[k].path == p;
    }
  }

  /** The path list and step loop of BuildIntegrationPlan. */
  method BuildSteps(base: Files, candidate: Files) returns (result: Option<seq<Step>>)
    ensures result.Some? ==> DiffPlan(base, candidate, result.value)
    ensures result.None? <==> exists p :: Oversized(base, candidate, p)
  {
    var paths := SortedPaths(base, candidate);
    var steps: seq<Step> := [];
    ghost var at: seq<nat> := [];
    var i := 0;
    assert StepsSoFar(base, candidate, paths, 0, steps, at);
    hide StepsSoFar, StepFor, DiffPlan;
    while i < |paths|
      invariant 0 <= i <= |paths| && StepsSoFar(base, candidate, paths, i, steps, at)
    {
      var path := paths[i];
      if DigestAt(base, path) != DigestAt(candidate, path) {
        var step := BuildStep(base, candidate, path);
        if step.None? {
          assert Oversized(base, candidate, path);
          return None;
        }
        OneMoreStep(base, candidate, paths, i, steps, at, step.value);
        steps := steps + [step.value];
        at := at + [i];
      } else {
        NoStepFor(base, candidate, paths, i, steps, at);
      }
      i := i + 1;
    }
    StepsMakePlan(base, candidate, paths, steps, at);
    return Some(steps);
  }

  // -------------------------------------------------------- a plan's total effect

  lemma {:induction false} UntouchedPath(files: Files, steps: seq<Step>, k: nat, path: string)
    requires k <= |steps| && forall i | 0 <= i < k :: steps[i].path != path
    ensures DigestAt(AfterSteps(files, steps, k), path) == DigestAt(files, path)
    decreases k
  {
    if k > 0 {
      UntouchedPath(files, steps, k - 1, path);
    }
  }

  lemma {:induction false} DistinctPaths(steps: seq<Step>, i: nat, j: nat)
    requires IncreasingPaths(steps) && i < |steps| && j < |steps| && steps[i].path == steps[j].path
    ensures i == j
  {
    LessIrreflexive(steps[i].path);
  }

  /** Permission bits fit what the system keeps of a mode. */
  ghost predicate NormalModes(files: Files)
  {
    forall p | p in files :: files[p].mode < 512
  }

  /** One of the first `k` steps is about this path. */
  ghost predicate Touched(steps: seq<Step>, k: nat, path: string)
    requires k <= |steps|
  {
    exists i :: 0 <= i < k && steps[i].path == path
  }

  /** After `k` steps of a plan, each path holds the candidate's file when its
      step is among them and the base's file otherwise. */
  lemma {:induction false} PlanProgress(base: Files, candidate: Files, live: Files, steps: seq<Step>, k: nat,
                                        path: string)
    requires k <= |steps| && NormalModes(candidate)
    requires forall i | 0 <= i < k :: StepFor(base, candidate, steps[i])
    ensures DigestAt(AfterSteps(live, steps, k), path) ==
      if Touched(steps, k, path) then DigestAt(candidate, path) else DigestAt(live, path)
    decreases k
  {
    if k > 0 {
      var step := steps[k - 1];
      PlanProgress(base, candidate, live, steps, k - 1, path);
      StepLeavesCandidate(base, candidate, AfterSteps(live, steps, k - 1), step);
      assert Touched(steps, k, path) <==> Touched(steps, k - 1, path) || step.path == path;
    }
  }

  lemma {:induction false} StepLeavesCandidate(base: Files, candidate: Files, files: Files, step: Step)
    requires StepFor(base, candidate, step) && NormalModes(candidate)
    ensures DigestAt(Effect(files, step), step.path) == DigestAt(candidate, step.path)
    ensures forall p | p != step.path :: DigestAt(Effect(files, step), p) == DigestAt(files, p)
  {
  }

  /** Every plan that BuildIntegrationPlan returns passes validIntegrationPlan. */
  lemma {:induction false} BuiltPlanIsValid(base: Files, candidate: Files, steps: seq<Step>)
    requires DiffPlan(base, candidate, steps)
    requires forall p | p in base || p in candidate :: ValidRelativePath(p)
    requires forall p :: !Oversized(base, candidate, p)
    ensures ValidSteps(steps)
  {
    forall i | 0 <= i < |steps| ensures ValidStep(steps[i]) {
      assert !Oversized(base, candidate, steps[i].path);
      assert StepFor(base, candidate, steps[i]);
    }
  }

  // ------------------------------------------------------- applying to the tree

  /** applyIntegrationStep when no system call fails. */
  function Applied(t: Tree, step: Step): (result: Option<Tree>)
  {
    if step.operation == Unknown || StateAt(t, step.path) != Known(step.before) then None
    else if step.operation == Delete then
      if step.path in t && step.after == NoFile then Some(t - {step.path}) else None
    else if |step.blob| > MAX_BLOB then None
    else
      var file := File(step.blob, Permissions(step.mode));
      if step.after == DigestOf(file) then Some(WithParents(t, step.path)[step.path := Regular(file)]) else None
  }

  /** Applying all steps from the `k`-th tree on; None once a step is refused. */
  function AppliedAll(t: Tree, steps: seq<Step>, k: nat): Option<Tree>
    requires k <= |steps|
    decreases k
  {
    if k == 0 then Some(t)
    else match AppliedAll(t, steps, k - 1)
         case None => None
         case Some(u) => Applied(u, steps[k - 1])
  }

  /** A readable path has only directories above it. */
  lemma {:induction false} ReadableIsBelowDirectories(t: Tree, path: string)
    requires WellFormed(t) && StateAt(t, path).Known?
    ensures forall a | a in Ancestors(path) && a in t :: t[a] == Dir
    ensures path in t ==> t[path].Regular?
    ensures StateAt(t, path) == Known(DigestAt(AllFiles(t), path))
  {
  }

  lemma {:induction false} FileReplaced(t: Tree, path: string, file: File)
    requires WellFormed(t) && (path in t ==> t[path].Regular?)
    requires forall a | a in Ancestors(path) :: a in t && t[a] == Dir
    ensures WellFormed(t[path := Regular(file)])
    ensures AllFiles(t[path := Regular(file)]) == AllFiles(t)[path := file]
  {
    var u := t[path := Regular(file)];
    forall p, a | p in u && a in Ancestors(p) ensures a in u && u[a] == Dir {
      assert a in t && t[a] == Dir;
    }
  }

  lemma {:induction false} FileRemoved(t: Tree, path: string)
    requires WellFormed(t) && path in t && t[path].Regular?
    ensures WellFormed(t - {path}) && AllFiles(t - {path}) == AllFiles(t) - {path}
  {
    var u := t - {path};
    forall p, a | p in u && a in Ancestors(p) ensures a in u && u[a] == Dir {
      assert a in t && t[a] == Dir;
    }
  }

  /** A successful step has its effect on the files, loses no directory, and
      keeps the tree well formed. */
  lemma {:induction false} AppliedEffect(t: Tree, step: Step)
    requires WellFormed(t) && Applied(t, step).Some?
    ensures var u := Applied(t, step).value;
      && WellFormed(u) && AllFiles(u) == Effect(AllFiles(t), step)
      && (forall p | p in t && t[p] == Dir :: p in u && u[p] == Dir)
      && (forall p | p in u && u[p] == Dir ::
        (p in t && t[p] == Dir) || (step.operation != Delete && p in Ancestors(step.path)))
  {
    ReadableIsBelowDirectories(t, step.path);
    if step.operation == Delete {
      FileRemoved(t, step.path);
    } else {
      ParentsKeepFiles(t, step.path);
      FileReplaced(WithParents(t, step.path), step.path, File(step.blob, Permissions(step.mode)));
    }
  }

  // ---------------------------------------------------- build, then apply

  /** The candidate has a file where the live tree has a directory. */
  ghost predicate CreatesOverDirectory(live: Tree, candidate: Files)
  {
    exists p :: p in candidate && p in live && live[p] == Dir
  }

  /** What BuildIntegrationPlan has checked of both trees, and the plan it made. */
  ghost predicate Built(live: Tree, candidate: Tree, steps: seq<Step>)
  {
    && WellFormed(live) && WellFormed(candidate) && NormalModes(TreeFiles(candidate))
    && DiffPlan(TreeFiles(live), TreeFiles(candidate), steps)
    && (forall p | p in TreeFiles(live) || p in TreeFiles(candidate) :: ValidRelativePath(p))
    && (forall p :: !Oversized(TreeFiles(live), TreeFiles(candidate), p))
  }

  lemma {:induction false} StepOf(base: Files, candidate: Files, steps: seq<Step>, path: string) returns (i: nat)
    requires DiffPlan(base, candidate, steps) && DigestAt(base, path) != DigestAt(candidate, path)
    ensures i < |steps| && steps[i].path == path
  {
    i :| 0 <= i < |steps| && steps[i].path == path;
  }

  lemma {:induction false} StepIsForTreeFile(live: Tree, candidate: Tree, steps: seq<Step>, k: nat)
    requires Built(live, candidate, steps) && k < |steps|
    ensures StepFor(TreeFiles(live), TreeFiles(candidate), steps[k])
    ensures !Excluded(steps[k].path) && ValidRelativePath(steps[k].path) && |steps[k].blob| <= MAX_BLOB
    ensures steps[k].path in TreeFiles(live) || steps[k].path in TreeFiles(candidate)
  {
    var step := steps[k];
    assert StepFor(TreeFiles(live), TreeFiles(candidate), step);
    assert !Oversized(TreeFiles(live), TreeFiles(candidate), step.path);
    assert step.path in TreeFiles(live) || step.path in TreeFiles(candidate);
  }

  /** A file of the base above a path that the candidate has is deleted by an
      earlier step: its path sorts first. */
  lemma {:induction false} FileAboveIsDeletedFirst(base: Files, candidate: Files, steps: seq<Step>, k: nat, a: string)
    requires DiffPlan(base, candidate, steps) && k < |steps|
    requires IsAncestor(a, steps[k].path) && a in base && a !in candidate
    ensures Touched(steps, k, a)
  {
    var i := StepOf(base, candidate, steps, a);
    PrefixIsLess(a, steps[k].path);
    if k <= i {
      if k < i {
        LessTransitive(a, steps[k].path, a);
      }
      LessIrreflexive(a);
    }
  }

  /** When step `k` is reached, no file is above its path any more: a
      file-to-directory replacement relies on the path order here. */
  lemma {:induction false} NothingAboveIsAFile(live: Tree, candidate: Tree, steps: seq<Step>, k: nat, a: string)
    requires Built(live, candidate, steps) && k < |steps|
    requires steps[k].path in TreeFiles(candidate) && a in Ancestors(steps[k].path)
    ensures a !in AfterSteps(AllFiles(live), steps, k)
  {
    var base, wanted := TreeFiles(live), TreeFiles(candidate);
    assert candidate[a] == Dir;
    StepIsForTreeFile(live, candidate, steps, k);
    AncestorSharesFirstComponent(a, steps[k].path);
    if a in AllFiles(live) {
      assert a in base;
      FileAboveIsDeletedFirst(base, wanted, steps, k, a);
    }
    PlanProgress(base, wanted, AllFiles(live), steps, k, a);
  }

  /** A tree on the way through the plan: the first `k` steps have had their
      effect on the files, no directory is gone, and new directories are only
      those above what one of the first `m` steps writes. */
  ghost predicate Reached(live: Tree, steps: seq<Step>, k: nat, m: nat, u: Tree)
  {
    && k <= |steps| && WellFormed(u) && AllFiles(u) == AfterSteps(AllFiles(live), steps, k)
    && (forall p | p in live && live[p] == Dir :: p in u && u[p] == Dir)
    && (forall p | p in u && u[p] == Dir :: (p in live && live[p] == Dir) || MadeFor(steps, m, p))
  }

  ghost predicate MadeFor(steps: seq<Step>, m: nat, p: string)
  {
    exists i :: 0 <= i < m && i < |steps| && steps[i].operation != Delete && p in Ancestors(steps[i].path)
  }

  /** A path that the candidate creates has not become a directory by the time
      its step is reached, unless it was one from the start. */
  lemma {:induction false} CreatedPathIsFree(live: Tree, candidate: Tree, steps: seq<Step>, k: nat, m: nat, u: Tree,
                                             path: string)
    requires Built(live, candidate, steps) && Reached(live, steps, k, m, u)
    requires path in TreeFiles(candidate) && path in u && u[path] == Dir
    ensures path in live && live[path] == Dir
  {
  }

  /** When step `k` is reached its file is still the base's, and readable unless
      it would be created over a directory. */
  lemma {:induction false} StepIsReady(live: Tree, candidate: Tree, steps: seq<Step>, k: nat, m: nat, u: Tree)
    requires Built(live, candidate, steps) && k < |steps|
    requires Reached(live, steps, k, m, u)
    ensures StateAt(u, steps[k].path) ==
      if steps[k].path in live && live[steps[k].path] == Dir then Unreadable else Known(steps[k].before)
  {
    var path := steps[k].path;
    StepIsForTreeFile(live, candidate, steps, k);
    forall i | 0 <= i < k ensures steps[i].path != path {
      if steps[i].path == path {
        DistinctPaths(steps, i, k);
      }
    }
    UntouchedPath(AllFiles(live), steps, k, path);
    assert DigestAt(AllFiles(u), path) == steps[k].before;
    if path in live && live[path] == Dir {
      assert u[path] == Dir;
    } else if path !in TreeFiles(live) {
      assert steps[k].before == NoFile && path !in AllFiles(u);
      if path in u {
        CreatedPathIsFree(live, candidate, steps, k, m, u, path);
      }
      forall a | a in Ancestors(path) ensures a !in AllFiles(u) {
        NothingAboveIsAFile(live, candidate, steps, k, a);
      }
    }
  }

  /** Once step `k - 1` is done, and before directories are made for step `k`,
      its path shows the candidate's file. */
  lemma {:induction false} StepIsDone(live: Tree, candidate: Tree, steps: seq<Step>, k: nat, u: Tree)
    requires Built(live, candidate, steps) && 0 < k <= |steps|
    requires Reached(live, steps, k, k, u)
    ensures StateAt(u, steps[k - 1].path) == Known(steps[k - 1].after)
  {
    var path := steps[k - 1].path;
    StepIsForTreeFile(live, candidate, steps, k - 1);
    StepLeavesCandidate(TreeFiles(live), TreeFiles(candidate), AfterSteps(AllFiles(live), steps, k - 1), steps[k - 1]);
    assert DigestAt(AllFiles(u), path) == steps[k - 1].after;
    if steps[k - 1].after == NoFile {
      DeletedPathIsFree(live, steps, k, u);
      forall a | a in Ancestors(path) ensures a in u && u[a] == Dir {
        assert a in live && live[a] == Dir;
      }
    }
  }

  /** No directory has been made where the latest step deleted a file. */
  lemma {:induction false} DeletedPathIsFree(live: Tree, steps: seq<Step>, k: nat, u: Tree)
    requires 0 < k <= |steps| && IncreasingPaths(steps) && Reached(live, steps, k, k, u)
    requires steps[k - 1].path in live && live[steps[k - 1].path].Regular?
    ensures !(steps[k - 1].path in u && u[steps[k - 1].path] == Dir)
  {
    var path := steps[k - 1].path;
    if MadeFor(steps, k, path) {
      var i :| 0 <= i < k && i < |steps| && steps[i].operation != Delete && path in Ancestors(steps[i].path);
      PrefixIsLess(path, steps[i].path);
      if i < k - 1 {
        LessTransitive(path, steps[i].path, path);
      }
      LessIrreflexive(path);
    }
  }

  lemma {:induction false} AppliedAllReaches(t: Tree, steps: seq<Step>, k: nat)
    requires WellFormed(t) && k <= |steps| && AppliedAll(t, steps, k).Some?
    ensures Reached(t, steps, k, k, AppliedAll(t, steps, k).value)
    decreases k
  {
    if k == 0 {
      return;
    }
    hide Applied, Reached;
    if k > 0 {
      AppliedAllReaches(t, steps, k - 1);
      AppliedReaches(t, steps, k - 1, AppliedAll(t, steps, k - 1).value);
    }
  }

  lemma {:induction false} AppliedReaches(t: Tree, steps: seq<Step>, k: nat, u: Tree)
    requires k < |steps| && Reached(t, steps, k, k, u) && Applied(u, steps[k]).Some?
    ensures Reached(t, steps, k + 1, k + 1, Applied(u, steps[k]).value)
  {
    AppliedEffect(u, steps[k]);
    forall p | MadeFor(steps, k, p) ensures MadeFor(steps, k + 1, p) {
      var i :| 0 <= i < k && i < |steps| && steps[i].operation != Delete && p in Ancestors(steps[i].path);
    }
    assert steps[k].operation != Delete ==> forall p | p in Ancestors(steps[k].path) :: MadeFor(steps, k + 1, p);
  }

  lemma {:induction false} AppliedPrefix(t: Tree, steps: seq<Step>, k: nat, n: nat)
    requires k <= n <= |steps| && AppliedAll(t, steps, n).Some?
    ensures AppliedAll(t, steps, k).Some?
    decreases n
  {
    hide Applied;
    if k < n {
      AppliedPrefix(t, steps, k, n - 1);
    }
  }

  lemma {:induction false} StepApplies(live: Tree, candidate: Tree, steps: seq<Step>, k: nat, u: Tree)
    requires Built(live, candidate, steps) && k < |steps|
    requires AppliedAll(live, steps, k) == Some(u)
    requires !(steps[k].path in live && live[steps[k].path] == Dir)
    ensures Applied(u, steps[k]).Some?
  {
    StepIsForTreeFile(live, candidate, steps, k);
    AppliedAllReaches(live, steps, k);
    StepIsReady(live, candidate, steps, k, k, u);
    ReadyStepApplies(TreeFiles(live), TreeFiles(candidate), u, steps[k]);
  }

  lemma {:induction false} ReadyStepApplies(base: Files, candidate: Files, u: Tree, step: Step)
    requires StepFor(base, candidate, step) && NormalModes(candidate) && |step.blob| <= MAX_BLOB
    requires StateAt(u, step.path) == Known(step.before)
    ensures Applied(u, step).Some?
  {
    var p := step.path;
    if p in candidate {
      assert File(step.blob, Permissions(step.mode)) == candidate[p];
    }
  }

  lemma {:induction false} NotOverDirectory(live: Tree, candidate: Tree, steps: seq<Step>, k: nat)
    requires Built(live, candidate, steps) && k < |steps| && !CreatesOverDirectory(live, TreeFiles(candidate))
    ensures !(steps[k].path in live && live[steps[k].path] == Dir)
  {
    StepIsForTreeFile(live, candidate, steps, k);
  }

  lemma {:induction false} AllStepsApply(live: Tree, candidate: Tree, steps: seq<Step>, k: nat)
    requires Built(live, candidate, steps) && k <= |steps|
    requires !CreatesOverDirectory(live, TreeFiles(candidate))
    ensures AppliedAll(live, steps, k).Some?
    decreases k
  {
    hide Applied, Built, CreatesOverDirectory, TreeFiles;
    if k > 0 {
      AllStepsApply(live, candidate, steps, k - 1);
      NotOverDirectory(live, candidate, steps, k - 1);
      StepApplies(live, candidate, steps, k - 1, AppliedAll(live, steps, k - 1).value);
    }
  }

  /** Main result: applying a built plan to the unchanged tree succeeds exactly
      when the candidate has no file where the live tree has a directory, and
      then the live tree's files are the candidate's, with excluded paths as
      they were. */
  lemma {:induction false} BuildThenApplyIsExact(live: Tree, candidate: Tree, steps: seq<Step>)
    requires Built(live, candidate, steps)
    ensures AppliedAll(live, steps, |steps|).Some? <==> !CreatesOverDirectory(live, TreeFiles(candidate))
    ensures AppliedAll(live, steps, |steps|).Some? ==>
      var result := AppliedAll(live, steps, |steps|).value;
      && TreeFiles(result) == TreeFiles(candidate)
      && (forall p | Excluded(p) :: DigestAt(AllFiles(result), p) == DigestAt(AllFiles(live), p))
  {
    if !CreatesOverDirectory(live, TreeFiles(candidate)) {
      AllStepsApply(live, candidate, steps, |steps|);
    }
    if AppliedAll(live, steps, |steps|).Some? {
      NoDirectoryInTheWay(live, candidate, steps);
      FinalFiles(live, candidate, steps);
    }
  }

  /** A plan is built, and cannot be applied, when the candidate replaces a
      directory by a file: the plan deletes what is in the directory, if
      anything, but not the directory. */
  lemma {:induction false} FileOverDirectoryIsRefused() returns (live: Tree, candidate: Tree, steps: seq<Step>)
    ensures Built(live, candidate, steps) && |steps| == 1 && steps[0].operation == Create
    ensures AppliedAll(live, steps, 1) == None
  {
    var file := File([], 0);
    live, candidate := map["a" := Dir], map["a" := Regular(file)];
    steps := [Step("a", Create, NoFile, DigestOf(file), 0, [])];
    PlainName();
    assert TreeFiles(live) == map[] && TreeFiles(candidate) == map["a" := file];
    assert steps[0].path == "a";
    assert AppliedAll(live, steps, 0) == Some(live);
  }

  lemma {:induction false} PlainName()
    ensures ValidRelativePath("a") && !Excluded("a") && Ancestors("a") == {}
  {
    assert Components("a") == ["a"] by {
      assert "a"[1..] == "" && "" + ["a"[0]] == "a";
      assert ComponentsFrom("", "a") == ["a"];
    }
  }

  lemma {:induction false} NoDirectoryInTheWay(live: Tree, candidate: Tree, steps: seq<Step>)
    requires Built(live, candidate, steps) && AppliedAll(live, steps, |steps|).Some?
    ensures !CreatesOverDirectory(live, TreeFiles(candidate))
  {
    if CreatesOverDirectory(live, TreeFiles(candidate)) {
      var p :| p in TreeFiles(candidate) && p in live && live[p] == Dir;
      var k := StepOf(TreeFiles(live), TreeFiles(candidate), steps, p);
      AppliedPrefix(live, steps, k + 1, |steps|);
      AppliedAllReaches(live, steps, k);
      StepIsReady(live, candidate, steps, k, k, AppliedAll(live, steps, k).value);
    }
  }

  lemma {:induction false} FinalFiles(live: Tree, candidate: Tree, steps: seq<Step>)
    requires Built(live, candidate, steps) && AppliedAll(live, steps, |steps|).Some?
    ensures var result := AppliedAll(live, steps, |steps|).value;
      && TreeFiles(result) == TreeFiles(candidate)
      && (forall p | Excluded(p) :: DigestAt(AllFiles(result), p) == DigestAt(AllFiles(live), p))
  {
    var result := AppliedAll(live, steps, |steps|).value;
    AppliedAllReaches(live, steps, |steps|);
    forall p
      ensures !Excluded(p) ==> DigestAt(AllFiles(result), p) == DigestAt(TreeFiles(candidate), p)
      ensures Excluded(p) ==> DigestAt(AllFiles(result), p) == DigestAt(AllFiles(live), p)
    {
      FinalFile(live, candidate, steps, p);
    }
    SameFiles(result, TreeFiles(candidate));
  }

  lemma {:induction false} FinalFile(live: Tree, candidate: Tree, steps: seq<Step>, p: string)
    requires Built(live, candidate, steps)
    ensures DigestAt(AfterSteps(AllFiles(live), steps, |steps|), p) ==
      if Excluded(p) then DigestAt(AllFiles(live), p) else DigestAt(TreeFiles(candidate), p)
  {
    var base, wanted := TreeFiles(live), TreeFiles(candidate);
    PlanProgress(base, wanted, AllFiles(live), steps, |steps|, p);
    if Touched(steps, |steps|, p) {
      var i :| 0 <= i < |steps| && steps[i].path == p;
      StepIsForTreeFile(live, candidate, steps, i);
    } else if DigestAt(base, p) != DigestAt(wanted, p) {
      var i := StepOf(base, wanted, steps, p);
      assert false;
    }
  }

  lemma {:induction false} SameFiles(t: Tree, files: Files)
    requires forall p | !Excluded(p) :: DigestAt(AllFiles(t), p) == DigestAt(files, p)
    requires forall p | p in files :: !Excluded(p)
    ensures TreeFiles(t) == files
  {
    forall p ensures p in TreeFiles(t) <==> p in files {
      assert p in TreeFiles(t) ==> p in AllFiles(t);
    }
  }
}
