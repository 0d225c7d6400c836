/** What leases and fences are worth over whole runs of one state directory
    (internal/workspace/workspace.go). A run is any sequence of durable steps:
    calls by any owner, calls cut short by a crash or a failed write, restarts
    (which leave the disk alone), and time passing. Instants are counted from
    the zero time. */
module LeaseModel {

  const MAX_FENCE: nat := 0xFFFF_FFFF_FFFF_FFFF

  datatype Lease = Lease(generationID: string, owner: string, fence: nat, expiresAt: nat)
  datatype LeaseFile = Absent | Garbled | Stored(lease: Lease)
  datatype RuntimeFile = Free | Taken(owner: string, fence: nat)

  /** Broken: the directory is there, its metadata is not (yet, or any more). */
  datatype State = Active | Quarantined | Broken
  datatype Generation = Generation(state: State, lease: LeaseFile, runtime: RuntimeFile)
  datatype Disk = Disk(fence: nat, generations: map<string, Generation>)
  datatype Moment = Moment(disk: Disk, now: nat)

  predicate Plain(text: string)
  {
    '/' !in text && '\\' !in text && '\0' !in text
  }

  predicate ValidGenerationID(id: string)
  {
    |id| <= 64 && "gen_" <= id && Plain(id)
  }

  predicate ValidOwner(owner: string)
  {
    owner != "" && |owner| <= 256 && Plain(owner) && '\r' !in owner && '\n' !in owner
  }

  /** loadGeneration succeeds. */
  predicate Loads(disk: Disk, id: string)
  {
    ValidGenerationID(id) && id in disk.generations && disk.generations[id].state.Active?
  }

  /** The lease file of a generation that loads. */
  function Live(disk: Disk, id: string): LeaseFile
  {
    if Loads(disk, id) then disk.generations[id].lease else Absent
  }

  predicate InPlace(disk: Disk, lease: Lease)
  {
    ValidOwner(lease.owner) && Live(disk, lease.generationID) == Stored(lease)
  }

  /** AssertLease accepts this lease now. */
  predicate Passes(m: Moment, lease: Lease)
  {
    InPlace(m.disk, lease) && m.now < lease.expiresAt
  }

  // ------------------------------------------------------------------ steps

  datatype Action =
    | Nothing
    | Materialize(id: string, state: State)
    | Acquire(lease: Lease, stored: bool)    // the fence is taken; the lease is stored or not
    | Renew(held: Lease, lease: Lease)
    | Withdraw(id: string)                   // the lease file goes: a release or a recovery
    | Quarantine(id: string)                 // an expired lease met by AcquireLease
    | Tear(id: string, noMetadata: bool, noLease: bool, noOwner: bool)  // a removal stopped half way
    | Vanish(id: string)                     // discarded, or moved aside by a recovery
    | Reserve(id: string, owner: string, fence: nat)
    | Unreserve(id: string)

  datatype Step = Step(action: Action, now: nat)

  predicate Expired(file: LeaseFile, now: nat)
  {
    file.Stored? && file.lease.expiresAt <= now
  }

  predicate Enabled(m: Moment, step: Step)
  {
    && m.now <= step.now
    && match step.action
       case Nothing => true
       case Materialize(id, state) =>
         ValidGenerationID(id) && id !in m.disk.generations
       case Acquire(lease, _) =>
         && Loads(m.disk, lease.generationID) && Live(m.disk, lease.generationID) == Absent
         && ValidOwner(lease.owner) && lease.fence == m.disk.fence + 1 <= MAX_FENCE && step.now < lease.expiresAt
       case Renew(held, lease) =>
         Passes(m.(now := step.now), held) && lease == held.(expiresAt := lease.expiresAt) && step.now < lease.expiresAt
       case Quarantine(id) =>
         Expired(Live(m.disk, id), step.now)
       case Withdraw(id) => id in m.disk.generations
       case Tear(id, _, _, _) => id in m.disk.generations
       case Vanish(id) => id in m.disk.generations
       case Reserve(id, owner, fence) =>
         Loads(m.disk, id) && m.disk.generations[id].runtime == Free && ValidOwner(owner)
       case Unreserve(id) => id in m.disk.generations
  }

  function Amend(disk: Disk, id: string, file: LeaseFile): Disk
  {
    if id in disk.generations
    then disk.(generations := disk.generations[id := disk.generations[id].(lease := file)])
    else disk
  }

  function Restate(disk: Disk, id: string, state: State): Disk
  {
    if id in disk.generations
    then disk.(generations := disk.generations[id := disk.generations[id].(state := state)])
    else disk
  }

  function Occupy(disk: Disk, id: string, runtime: RuntimeFile): Disk
  {
    if id in disk.generations
    then disk.(generations := disk.generations[id := disk.generations[id].(runtime := runtime)])
    else disk
  }

  function Effect(disk: Disk, action: Action): Disk
  {
    match action
    case Nothing => disk
    case Materialize(id, state) => disk.(generations := disk.generations[id := Generation(state, Absent, Free)])
    case Acquire(lease, stored) =>
      var taken := disk.(fence := disk.fence + 1);
      if stored then Amend(taken, lease.generationID, Stored(lease)) else taken
    case Renew(_, lease) => Amend(disk, lease.generationID, Stored(lease))
    case Withdraw(id) => Amend(disk, id, Absent)
    case Quarantine(id) => Restate(disk, id, Quarantined)
    case Tear(id, metadata, lease, owner) =>
      var left := if metadata then Restate(disk, id, Broken) else disk;
      var unleased := if lease then Amend(left, id, Absent) else left;
      if owner then Occupy(unleased, id, Free) else unleased
    case Vanish(id) => disk.(generations := disk.generations - {id})
    case Reserve(id, owner, fence) => Occupy(disk, id, Taken(owner, fence))
    case Unreserve(id) => Occupy(disk, id, Free)
  }

  function After(m: Moment, step: Step): Moment
  {
    Moment(Effect(m.disk, step.action), step.now)
  }

  /** The moment after the first `n` steps. */
  function At(start: Moment, steps: seq<Step>, n: nat): Moment
    requires n <= |steps|
    decreases n
  {
    if n == 0 then start else After(At(start, steps, n - 1), steps[n - 1])
  }

  ghost predicate ValidRun(start: Moment, steps: seq<Step>)
  {
    Sound(start.disk) && forall n | 0 <= n < |steps| :: Enabled(At(start, steps, n), steps[n])
  }

  /** A live lease stands where it belongs, and its fence was taken from the
      counter and serves no other generation. */
  ghost predicate Sound(disk: Disk)
  {
    && disk.fence <= MAX_FENCE
    && (forall id :: Live(disk, id).Stored? ==>
          Live(disk, id).lease.generationID == id && 1 <= Live(disk, id).lease.fence <= disk.fence)
    && (forall a, b | Live(disk, a).Stored? && Live(disk, b).Stored? ::
          Live(disk, a).lease.fence == Live(disk, b).lease.fence ==> a == b)
  }

  predicate Writes(action: Action, lease: Lease)
  {
    (action.Acquire? && action.stored && action.lease == lease) || (action.Renew? && action.lease == lease)
  }

  /** What takes a lease away from its generation. */
  predicate Withdraws(action: Action, id: string)
  {
    match action
    case Withdraw(gone) => gone == id
    case Quarantine(gone) => gone == id
    case Tear(gone, metadata, lease, _) => gone == id && (metadata || lease)
    case Vanish(gone) => gone == id
    case _ => false
  }

  predicate Touches(action: Action, id: string)
  {
    || Withdraws(action, id)
    || (action.Acquire? && action.stored && action.lease.generationID == id)
    || (action.Renew? && action.lease.generationID == id)
  }

  /** What a step makes of the live lease of a generation. */
  function Following(file: LeaseFile, action: Action, id: string): LeaseFile
  {
    match action
    case Acquire(lease, stored) => if stored && lease.generationID == id then Stored(lease) else file
    case Renew(_, lease) => if lease.generationID == id then Stored(lease) else file
    case _ => if Withdraws(action, id) then Absent else file
  }

  lemma {:induction false} LiveAfter(m: Moment, step: Step, id: string)
    requires Enabled(m, step)
    ensures Live(After(m, step).disk, id) == Following(Live(m.disk, id), step.action, id)
  {
    hide ValidOwner, ValidGenerationID;
  }

  lemma {:induction false} CounterAfter(m: Moment, step: Step)
    requires Enabled(m, step)
    ensures After(m, step).disk.fence == m.disk.fence + if step.action.Acquire? then 1 else 0
    ensures m.now <= After(m, step).now == step.now
  {
    hide ValidOwner, ValidGenerationID, Loads;
  }

  lemma {:induction false} StepKeepsSound(m: Moment, step: Step)
    requires Sound(m.disk) && Enabled(m, step)
    ensures Sound(After(m, step).disk)
  {
    hide ValidOwner, ValidGenerationID, Loads, Live, Effect;
    CounterAfter(m, step);
    forall id ensures Live(After(m, step).disk, id) == Following(Live(m.disk, id), step.action, id) {
      LiveAfter(m, step, id);
    }
  }

  /** A valid run meets each step's conditions, in a sound state. */
  lemma {:induction false} RunStep(start: Moment, steps: seq<Step>, n: nat)
    requires ValidRun(start, steps) && n < |steps|
    ensures Enabled(At(start, steps, n), steps[n]) && Sound(At(start, steps, n).disk)
    ensures At(start, steps, n + 1) == After(At(start, steps, n), steps[n])
    ensures Sound(At(start, steps, n + 1).disk)
    decreases n
  {
    hide Enabled, Sound, After;
    if n > 0 {
      RunStep(start, steps, n - 1);
    }
    StepKeepsSound(At(start, steps, n), steps[n]);
  }

  lemma {:induction false} SoundAlways(start: Moment, steps: seq<Step>, n: nat)
    requires ValidRun(start, steps) && n <= |steps|
    ensures Sound(At(start, steps, n).disk)
  {
    hide Enabled, Sound, After;
    if n > 0 {
      RunStep(start, steps, n - 1);
    }
  }

  lemma {:induction false} CounterAndClockGrow(start: Moment, steps: seq<Step>, m: nat, n: nat)
    requires ValidRun(start, steps) && m <= n <= |steps|
    ensures At(start, steps, m).disk.fence <= At(start, steps, n).disk.fence
    ensures At(start, steps, m).now <= At(start, steps, n).now
    decreases n
  {
    hide Enabled, Sound, After, ValidRun;
    if m < n {
      CounterAndClockGrow(start, steps, m, n - 1);
      RunStep(start, steps, n - 1);
      CounterAfter(At(start, steps, n - 1), steps[n - 1]);
    }
  }

  lemma {:induction false} AtPrefix(start: Moment, steps: seq<Step>, more: seq<Step>, n: nat)
    requires n <= |steps|
    ensures At(start, steps + more, n) == At(start, steps, n)
    decreases n
  {
    if n > 0 {
      AtPrefix(start, steps, more, n - 1);
    }
  }

  lemma {:induction false} ExtendRun(start: Moment, steps: seq<Step>, step: Step)
    requires ValidRun(start, steps) && Enabled(At(start, steps, |steps|), step)
    ensures ValidRun(start, steps + [step])
    ensures At(start, steps + [step], |steps| + 1) == After(At(start, steps, |steps|), step)
  {
    var longer := steps + [step];
    forall n | 0 <= n < |longer| ensures Enabled(At(start, longer, n), longer[n]) {
      AtPrefix(start, steps, [step], n);
    }
    AtPrefix(start, steps, [step], |steps|);
  }

  // --------------------------------------------------------------- theorems

  /** A fence is taken once: of any two acquisitions in a run, whatever their
      generations and whether or not their leases were stored, the later one
      has the larger fence. */
  lemma {:induction false} FencesIncrease(start: Moment, steps: seq<Step>, i: nat, j: nat)
    requires ValidRun(start, steps) && i < j < |steps|
    requires steps[i].action.Acquire? && steps[j].action.Acquire?
    ensures steps[i].action.lease.fence < steps[j].action.lease.fence <= MAX_FENCE
  {
    hide ValidRun, Loads, ValidOwner, Effect;
    RunStep(start, steps, i);
    CounterAfter(At(start, steps, i), steps[i]);
    CounterAndClockGrow(start, steps, i + 1, j);
    RunStep(start, steps, j);
  }

  /** Some lease with this fence passes now. */
  ghost predicate Held(m: Moment, fence: nat)
  {
    exists lease: Lease :: lease.fence == fence && Passes(m, lease)
  }

  lemma {:induction false} StepRevivesNothing(m: Moment, step: Step, lease: Lease)
    requires Enabled(m, step) && Passes(After(m, step), lease) && lease.fence <= m.disk.fence
    ensures Held(m, lease.fence)
  {
    hide Sound, Live, Loads, ValidOwner, ValidGenerationID, Effect;
    LiveAfter(m, step, lease.generationID);
    if step.action.Renew? && step.action.lease == lease {
      assert Passes(m, step.action.held);
    } else {
      assert Passes(m, lease);
    }
  }

  /** Once a fence has been taken and no lease with it passes - released,
      expired, recovered, discarded, or never stored - none ever passes again,
      on any generation. */
  lemma {:induction false} EndedFenceStaysEnded(start: Moment, steps: seq<Step>, m: nat, n: nat, fence: nat)
    requires ValidRun(start, steps) && m <= n <= |steps|
    requires fence <= At(start, steps, m).disk.fence && !Held(At(start, steps, m), fence)
    ensures !Held(At(start, steps, n), fence)
    decreases n
  {
    hide Enabled, Sound, After, ValidRun, Passes;
    if m < n {
      EndedFenceStaysEnded(start, steps, m, n - 1, fence);
      CounterAndClockGrow(start, steps, m, n - 1);
      RunStep(start, steps, n - 1);
      if Held(At(start, steps, n), fence) {
        var lease: Lease :| lease.fence == fence && Passes(At(start, steps, n), lease);
        StepRevivesNothing(At(start, steps, n - 1), steps[n - 1], lease);
      }
    }
  }

  /** A held fence survives a step just when the step does not withdraw the
      lease and, renewed or not, it has not run out by then. */
  lemma {:induction false} FenceEndsExactlyWhen(m: Moment, step: Step, lease: Lease)
    requires Sound(m.disk) && Enabled(m, step) && Passes(m, lease)
    ensures Held(After(m, step), lease.fence)
       <==> !Withdraws(step.action, lease.generationID)
            && (step.now < lease.expiresAt || (step.action.Renew? && step.action.held == lease))
  {
    hide Live, Loads, ValidOwner, ValidGenerationID, Effect;
    var next, action := After(m, step), step.action;
    forall id ensures Live(next.disk, id) == Following(Live(m.disk, id), action, id) {
      LiveAfter(m, step, id);
    }
    if action.Renew? && action.held == lease {
      assert Passes(next, action.lease);
    } else if !Withdraws(action, lease.generationID) && step.now < lease.expiresAt {
      assert Passes(next, lease);
    }
    if other: Lease :| other.fence == lease.fence && Passes(next, other) {
      assert Live(next.disk, other.generationID) == Stored(other);
    }
  }

  /** A step never puts one fence in the hands of another generation or owner. */
  lemma {:induction false} StepKeepsOwner(m: Moment, step: Step, a: Lease, b: Lease)
    requires Sound(m.disk) && Enabled(m, step) && Passes(m, a) && Passes(After(m, step), b) && a.fence == b.fence
    ensures b == a.(expiresAt := b.expiresAt)
  {
    hide Live, Loads, ValidOwner, ValidGenerationID, Effect;
    LiveAfter(m, step, b.generationID);
    assert Live(m.disk, a.generationID) == Stored(a);
    if step.action.Renew? && step.action.lease == b {
      assert Live(m.disk, b.generationID) == Stored(step.action.held);
    } else {
      assert Live(m.disk, b.generationID) == Stored(b);
    }
  }

  lemma {:induction false} OneLeasePerFence(m: Moment, a: Lease, b: Lease)
    requires Sound(m.disk) && Passes(m, a) && Passes(m, b) && (a.fence == b.fence || a.generationID == b.generationID)
    ensures a == b && a.fence <= m.disk.fence && Held(m, a.fence)
  {
    hide Live, ValidOwner;
  }

  lemma {:induction false} HeldThroughout(start: Moment, steps: seq<Step>, k: nat, n: nat, lease: Lease)
    requires ValidRun(start, steps) && k <= n <= |steps| && Passes(At(start, steps, n), lease)
    requires lease.fence <= At(start, steps, k).disk.fence
    ensures Held(At(start, steps, k), lease.fence)
  {
    hide Enabled, Sound, After, ValidRun, Passes;
    if !Held(At(start, steps, k), lease.fence) {
      EndedFenceStaysEnded(start, steps, k, n, lease.fence);
    }
  }

  /** A fence names one owner of one generation for one uninterrupted time: two
      leases with it, passing at different moments, agree up to their expiry,
      and at every moment between some lease with it passes. */
  lemma {:induction false} FenceNamesOneOwnership(start: Moment, steps: seq<Step>, m: nat, n: nat, a: Lease, b: Lease)
    requires ValidRun(start, steps) && m <= n <= |steps|
    requires Passes(At(start, steps, m), a) && Passes(At(start, steps, n), b) && a.fence == b.fence
    ensures b == a.(expiresAt := b.expiresAt)
    ensures forall k | m <= k <= n :: Held(At(start, steps, k), a.fence)
    decreases n
  {
    hide Enabled, Sound, After, ValidRun, Passes;
    SoundAlways(start, steps, m);
    OneLeasePerFence(At(start, steps, m), a, a);
    forall k | m <= k <= n ensures Held(At(start, steps, k), a.fence) {
      CounterAndClockGrow(start, steps, m, k);
      HeldThroughout(start, steps, k, n, b);
    }
    if m == n {
      OneLeasePerFence(At(start, steps, m), a, b);
    } else {
      assert Held(At(start, steps, n - 1), a.fence);
      var c: Lease :| c.fence == a.fence && Passes(At(start, steps, n - 1), c);
      FenceNamesOneOwnership(start, steps, m, n - 1, a, c);
      RunStep(start, steps, n - 1);
      StepKeepsOwner(At(start, steps, n - 1), steps[n - 1], c, b);
    }
  }

  /** Ownership of a generation passes on for good: when a lease with another
      fence passes later, its fence is larger, and the earlier fence passes no
      more from then on. */
  lemma {:induction false} LaterOwnerFencesOffEarlier(start: Moment, steps: seq<Step>, m: nat, n: nat, k: nat,
                                                      a: Lease, b: Lease)
    requires ValidRun(start, steps) && m <= n <= k <= |steps|
    requires Passes(At(start, steps, m), a) && Passes(At(start, steps, n), b)
    requires a.generationID == b.generationID && a.fence != b.fence
    ensures a.fence < b.fence && !Held(At(start, steps, k), a.fence)
  {
    hide Enabled, Sound, After, ValidRun, Passes;
    var early, late := At(start, steps, m), At(start, steps, n);
    SoundAlways(start, steps, m);
    SoundAlways(start, steps, n);
    CounterAndClockGrow(start, steps, m, n);
    OneLeasePerFence(early, a, a);
    if Held(late, a.fence) {
      var c: Lease :| c.fence == a.fence && Passes(late, c);
      FenceNamesOneOwnership(start, steps, m, n, a, c);
      OneLeasePerFence(late, b, c);
    }
    EndedFenceStaysEnded(start, steps, n, k, a.fence);
    if b.fence <= early.disk.fence {
      HeldThroughout(start, steps, m, n, b);
      var c: Lease :| c.fence == b.fence && Passes(early, c);
      FenceNamesOneOwnership(start, steps, m, n, c, b);
      OneLeasePerFence(early, a, c);
    }
  }

  // --------------------------------------------- AssertLease, from history alone

  /** A step from `m` on wrote this lease, and none after it touched the lease
      of its generation. */
  ghost predicate Granted(steps: seq<Step>, m: nat, n: nat, lease: Lease)
    requires n <= |steps|
  {
    exists i | m <= i < n :: GrantedBy(steps, i, n, lease)
  }

  ghost predicate Untouched(steps: seq<Step>, m: nat, n: nat, id: string)
    requires m <= n <= |steps|
  {
    forall k | m <= k < n :: !Touches(steps[k].action, id)
  }

  ghost predicate GrantedBy(steps: seq<Step>, i: nat, n: nat, lease: Lease)
    requires i < n <= |steps|
  {
    Writes(steps[i].action, lease) && Untouched(steps, i + 1, n, lease.generationID)
  }

  lemma {:induction false} WriteOrKeep(m: Moment, step: Step, lease: Lease)
    requires Enabled(m, step)
    ensures Writes(step.action, lease) ==> InPlace(After(m, step).disk, lease)
    ensures !Touches(step.action, lease.generationID) ==>
      (InPlace(After(m, step).disk, lease) <==> InPlace(m.disk, lease))
    ensures InPlace(After(m, step).disk, lease) ==>
      Writes(step.action, lease) || !Touches(step.action, lease.generationID)
  {
    hide Live, Loads, ValidOwner, ValidGenerationID, Effect, Sound;
    LiveAfter(m, step, lease.generationID);
  }

  /** What is in place after `n` steps was written since the first `m` and left
      alone after that, or it was in place then and has been left alone since. */
  lemma {:induction false} InPlaceExactlyWhen(start: Moment, steps: seq<Step>, m: nat, n: nat, lease: Lease)
    requires ValidRun(start, steps) && m <= n <= |steps|
    ensures InPlace(At(start, steps, n).disk, lease)
       <==> Granted(steps, m, n, lease)
            || (InPlace(At(start, steps, m).disk, lease) && Untouched(steps, m, n, lease.generationID))
    decreases n
  {
    hide Enabled, Sound, After, ValidRun, InPlace, Writes, Touches;
    if m < n {
      var id := lease.generationID;
      InPlaceExactlyWhen(start, steps, m, n - 1, lease);
      RunStep(start, steps, n - 1);
      WriteOrKeep(At(start, steps, n - 1), steps[n - 1], lease);
      assert Untouched(steps, m, n, id) <==> Untouched(steps, m, n - 1, id) && !Touches(steps[n - 1].action, id);
      if Writes(steps[n - 1].action, lease) {
        assert GrantedBy(steps, n - 1, n, lease);
      } else if Granted(steps, m, n, lease) {
        var i :| m <= i < n && GrantedBy(steps, i, n, lease);
        assert GrantedBy(steps, i, n - 1, lease) && !Touches(steps[n - 1].action, id);
      } else if Granted(steps, m, n - 1, lease) {
        var i :| m <= i < n - 1 && GrantedBy(steps, i, n - 1, lease);
        assert Touches(steps[n - 1].action, id) || GrantedBy(steps, i, n, lease);
      }
    }
  }

  /** In a run from a disk without leases, AssertLease accepts a lease exactly
      when an acquisition or a renewal wrote it, nothing has released, renewed,
      recovered, quarantined or discarded it since, and it has not expired. */
  lemma {:induction false} PassesExactlyWhenGranted(start: Moment, steps: seq<Step>, n: nat, lease: Lease)
    requires ValidRun(start, steps) && n <= |steps|
    requires forall id | id in start.disk.generations :: !start.disk.generations[id].lease.Stored?
    ensures Passes(At(start, steps, n), lease)
       <==> Granted(steps, 0, n, lease) && At(start, steps, n).now < lease.expiresAt
  {
    assert !InPlace(start.disk, lease);
    hide Enabled, Sound, After, ValidRun, InPlace, GrantedBy;
    InPlaceExactlyWhen(start, steps, 0, n, lease);
  }

  /** A call that asserts a lease and then takes the lock again acts under that
      lease exactly when nothing touched it between, or the very same lease was
      written again, and the time is not up. */
  lemma {:induction false} StillPassesExactlyWhen(start: Moment, steps: seq<Step>, m: nat, n: nat, lease: Lease)
    requires ValidRun(start, steps) && m <= n <= |steps| && Passes(At(start, steps, m), lease)
    ensures Passes(At(start, steps, n), lease)
       <==> At(start, steps, n).now < lease.expiresAt
            && (Untouched(steps, m, n, lease.generationID) || Granted(steps, m, n, lease))
  {
    hide Enabled, Sound, After, ValidRun, InPlace, GrantedBy;
    InPlaceExactlyWhen(start, steps, m, n, lease);
  }

  // ---------------------------------------------------------- runtime owners

  ghost predicate Occupied(disk: Disk, action: Action)
    requires action.Reserve?
  {
    action.id in disk.generations && disk.generations[action.id].runtime == Taken(action.owner, action.fence)
  }

  /** What takes a runtime owner away from its generation. */
  predicate Frees(action: Action, id: string)
  {
    action == Unreserve(id) || action == Vanish(id) || (action.Tear? && action.id == id && action.noOwner)
  }

  lemma {:induction false} ReservationStays(m: Moment, step: Step, reserved: Action)
    requires Enabled(m, step) && reserved.Reserve?
    ensures step.action == reserved ==> Occupied(After(m, step).disk, reserved)
    ensures Occupied(m.disk, reserved) && !Frees(step.action, reserved.id)
      ==> Occupied(After(m, step).disk, reserved) && (step.action.Reserve? ==> step.action.id != reserved.id)
  {
    hide ValidOwner, ValidGenerationID;
  }

  /** A reservation stays as it was written until it is released, recovered or
      its generation goes; meanwhile no second owner gets in. */
  lemma {:induction false} OneRuntimeOwner(start: Moment, steps: seq<Step>, i: nat, n: nat)
    requires ValidRun(start, steps) && i < n <= |steps| && steps[i].action.Reserve?
    requires forall k | i < k < n :: !Frees(steps[k].action, steps[i].action.id)
    ensures Occupied(At(start, steps, n).disk, steps[i].action)
    ensures forall k | i < k < n :: steps[k].action.Reserve? ==> steps[k].action.id != steps[i].action.id
    decreases n
  {
    hide Enabled, Sound, After, ValidRun, Occupied;
    RunStep(start, steps, n - 1);
    ReservationStays(At(start, steps, n - 1), steps[n - 1], steps[i].action);
    if i + 1 < n {
      OneRuntimeOwner(start, steps, i, n - 1);
    }
  }

  /** ReserveRuntime asserts the lease and then locks again, so a reservation
      can be written for a lease that is gone by then. */
  lemma {:induction false} ReservationCanOutliveItsLease() returns (start: Moment, steps: seq<Step>, lease: Lease)
    ensures ValidRun(start, steps) && |steps| == 2 && Passes(start, lease)
    ensures steps[1].action == Reserve(lease.generationID, lease.owner, lease.fence)
    ensures !Passes(At(start, steps, 1), lease)
  {
    var id := "gen_1";
    lease := Lease(id, "a", 1, 9);
    start := Moment(Disk(1, map[id := Generation(Active, Stored(lease), Free)]), 1);
    steps := [Step(Withdraw(id), 1), Step(Reserve(id, "a", 1), 1)];
    assert At(start, steps, 1) == After(start, steps[0]);
  }
}
