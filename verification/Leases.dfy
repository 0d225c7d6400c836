/** The lease operations of one state directory (internal/workspace/workspace.go).
    Each holds the repository's lock; a read or a write may fail, a failed write
    may still have reached the disk, and nothing is kept outside the disk, so a
    call that stops half way is the same as a crash there. */
module Leases {
  import opened LeaseModel

  const MAX_TTL := 24 * 60 * 60 * 1_000_000_000

  datatype Err = NoError | Rejected | LeaseBusy | StaleFence

  predicate ValidTTL(ttl: int)
  {
    0 < ttl <= MAX_TTL
  }

  /** What Recover asks of a stored lease before it removes it. */
  predicate WellFormed(lease: Lease, id: string)
  {
    lease.generationID == id && ValidOwner(lease.owner) && lease.fence != 0 && lease.expiresAt != 0
  }

  predicate Recoverable(disk: Disk, id: string)
  {
    Loads(disk, id) && match Live(disk, id)
      case Absent => true
      case Garbled => false
      case Stored(lease) => WellFormed(lease, id)
  }

  class Repository {
    var fence: nat
    var generations: map<string, Generation>
    var clock: nat
    ghost var start: Moment
    ghost var steps: seq<Step>

    constructor (now: nat)
      ensures Valid() && steps == [] && Now() == start == Moment(Disk(0, map[]), now)
    {
      fence, generations, clock := 0, map[], now;
      start, steps := Moment(Disk(0, map[]), now), [];
    }

    function Now(): Moment
      reads this`fence, this`generations, this`clock
    {
      Moment(Disk(fence, generations), clock)
    }

    /** The disk is where a valid run has led. */
    ghost predicate Valid()
      reads this
    {
      && ValidRun(start, steps) && At(start, steps, |steps|) == Now()
      && forall id | id in generations :: ValidGenerationID(id)
    }

    twostate predicate Did(action: Action, now: nat)
      reads this
    {
      Valid() && start == old(start) && steps == old(steps) + [Step(action, now)] && clock == now
    }

    /** Carries out one step on the disk. */
    method Do(action: Action, now: nat)
      requires Valid() && Enabled(Now(), Step(action, now))
      modifies this
      ensures Did(action, now) && Now() == After(old(Now()), Step(action, now))
    {
      hide ValidRun, At, Enabled, Effect, ValidGenerationID;
      ghost var step := Step(action, now);
      ExtendRun(start, steps, step);
      IDsStayValid(Now(), step);
      steps := steps + [step];
      var disk := Effect(Disk(fence, generations), action);
      fence, generations, clock := disk.fence, disk.generations, now;
    }

    /** The writes of other callers while the lock is free. */
    method Others(others: seq<Step>)
      requires Valid()
      modifies this
      ensures Valid() && start == old(start) && old(steps) <= steps && old(clock) <= clock
    {
      hide ValidRun, At, After, Enabled;
      var i := 0;
      while i < |others|
        invariant Valid() && start == old(start) && old(steps) <= steps && old(clock) <= clock
      {
        if Enabled(Moment(Disk(fence, generations), clock), others[i]) {
          EnabledIsLater(Now(), others[i]);
          Do(others[i].action, others[i].now);
        }
        i := i + 1;
      }
    }

    /** Materialize, once the copy is made: the directory gets its name, then its
        metadata. */
    method Materialize(id: string, now: nat) returns (err: Err, action: Action)
      requires Valid() && clock <= now && ValidGenerationID(id)
      modifies this
      ensures Did(action, now)
      ensures err == NoError ==>
        id !in old(generations) && generations == old(generations)[id := Generation(Active, Absent, Free)]
      ensures err != NoError ==> generations.Keys <= old(generations.Keys) + {id}
      ensures err != NoError && id in generations && id !in old(generations) ==>
        generations[id].state in {Active, Broken} && generations[id].lease == Absent && generations[id].runtime == Free
      ensures fence == old(fence) && forall other | other in old(generations) ::
        other in generations && generations[other] == old(generations)[other]
    {
      hide ValidRun, At, ValidOwner, ValidGenerationID;
      err, action := Rejected, Nothing;
      if id !in generations {
        if * {
          action := LeaseModel.Materialize(id, Broken);
        } else if * {
          err, action := NoError, LeaseModel.Materialize(id, Active);
          if * {
            err := Rejected;
          }
        }
      }
      Do(action, now);
    }

    method AcquireLease(id: string, owner: string, ttl: int, now: nat)
      returns (err: Err, lease: Lease, action: Action, faulted: bool)
      requires Valid() && clock <= now
      modifies this
      ensures Did(action, now)
      ensures err == NoError ==>
        && ValidTTL(ttl) && action == Acquire(lease, true) && lease == Lease(id, owner, old(fence) + 1, now + ttl)
        && old(Live(Now().disk, id)) == Absent && Passes(Now(), lease)
      ensures err == LeaseBusy ==>
        action == Nothing && old(Live(Now().disk, id)).Stored? && !Expired(old(Live(Now().disk, id)), now)
      ensures err == StaleFence ==> action == Quarantine(id) && !Loads(Now().disk, id)
      ensures err == Rejected ==>
        action == Nothing || action == Quarantine(id) || (action.Acquire? && action.lease.generationID == id)
      ensures !faulted ==> (err == Rejected <==>
        !ValidOwner(owner) || !ValidTTL(ttl) || !old(Loads(Now().disk, id)) || old(Live(Now().disk, id)) == Garbled
        || (old(Live(Now().disk, id)) == Absent && old(fence) == MAX_FENCE))
      ensures !faulted && ValidOwner(owner) && ValidTTL(ttl) && old(Loads(Now().disk, id)) ==>
        (old(generations)[id].lease.Stored? ==>
          err == if now < old(generations)[id].lease.lease.expiresAt then LeaseBusy else StaleFence)
      ensures err == NoError ==>
        && old(Loads(Now().disk, id)) && fence == old(fence) + 1 <= MAX_FENCE
        && generations == old(generations)[id := old(generations)[id].(lease := Stored(lease))]
      ensures err == StaleFence ==>
        && id in old(generations) && fence == old(fence)
        && generations == old(generations)[id := old(generations)[id].(state := Quarantined)]
      ensures err == LeaseBusy ==> fence == old(fence) && generations == old(generations)
    {
      hide ValidRun, At, ValidOwner, ValidGenerationID;
      lease, action, faulted := Lease(id, owner, 0, 0), Nothing, false;
      if !ValidOwner(owner) || !ValidTTL(ttl) {
        Do(Nothing, now);
        return Rejected, lease, action, faulted;
      }
      faulted := *;
      if faulted || !Loads(Disk(fence, generations), id) || generations[id].lease.Garbled? {
        Do(Nothing, now);
        return Rejected, lease, action, faulted;
      }
      if generations[id].lease.Stored? {
        if generations[id].lease.lease.expiresAt > now {
          Do(Nothing, now);
          return LeaseBusy, lease, action, faulted;
        }
        action, err, faulted := DurableOrNot(Quarantine(id), now, StaleFence);
        return err, lease, action, faulted;
      }
      if fence == MAX_FENCE {
        Do(Nothing, now);
        return Rejected, lease, action, faulted;
      }
      // nextFence is on disk before the lease is.
      faulted := *;
      var counted: bool := *;
      if faulted && !counted {
        Do(Nothing, now);
        return Rejected, lease, action, faulted;
      }
      SoundAlways(start, steps, |steps|);
      lease := Lease(id, owner, fence + 1, now + ttl);
      if faulted {
        action := Acquire(lease, false);
        Do(action, now);
        return Rejected, lease, action, faulted;
      }
      faulted := *;
      var stored: bool := *;
      action := Acquire(lease, !faulted || stored);
      Do(action, now);
      err := if faulted then Rejected else NoError;
    }

    /** A write that succeeds, or is reported as failed with or without having
        reached the disk. */
    method DurableOrNot(wanted: Action, now: nat, success: Err) returns (action: Action, err: Err, faulted: bool)
      requires Valid() && Enabled(Now(), Step(wanted, now)) && clock <= now && success != Rejected
      modifies this
      ensures Did(action, now) && Now() == After(old(Now()), Step(action, now))
      ensures action == wanted || (action == Nothing && err == Rejected)
      ensures err == success || err == Rejected
      ensures faulted <==> err == Rejected
    {
      hide ValidRun, At;
      action, err, faulted := wanted, success, false;
      if * {
        err, faulted := Rejected, true;
        if * {
          action := Nothing;
        }
      }
      Do(action, now);
    }

    method RenewLease(held: Lease, ttl: int, now: nat) returns (err: Err, lease: Lease, action: Action, faulted: bool)
      requires Valid() && clock <= now
      modifies this
      ensures Did(action, now)
      ensures err == NoError ==>
        ValidTTL(ttl) && action == Renew(held, lease) && lease == held.(expiresAt := now + ttl) && Passes(Now(), lease)
      ensures err == NoError ==> Passes(old(Now()).(now := now), held)
      ensures err != NoError ==>
        action == Nothing || (err == Rejected && ValidTTL(ttl) && action == Renew(held, held.(expiresAt := now + ttl)))
      ensures err in {NoError, Rejected, StaleFence}
      ensures !faulted ==> (err == Rejected <==>
        !ValidOwner(held.owner) || !ValidTTL(ttl) || !old(Loads(Now().disk, held.generationID)))
      ensures !faulted ==> (err == NoError <==> ValidTTL(ttl) && Passes(old(Now()).(now := now), held))
      ensures fence == old(fence)
      ensures err == NoError ==>
        var id := held.generationID;
        && old(Loads(Now().disk, id)) && old(generations)[id].lease == Stored(held) && now < held.expiresAt
        && generations == old(generations)[id := old(generations)[id].(lease := Stored(held.(expiresAt := now + ttl)))]
    {
      hide ValidRun, At, ValidOwner, ValidGenerationID;
      lease, action, faulted := held, Nothing, false;
      if !ValidOwner(held.owner) || !ValidGenerationID(held.generationID) || !ValidTTL(ttl) {
        Do(Nothing, now);
        return Rejected, lease, action, faulted;
      }
      faulted := *;
      if faulted || !Loads(Disk(fence, generations), held.generationID) {
        Do(Nothing, now);
        return Rejected, lease, action, faulted;
      }
      faulted := *;
      if faulted || generations[held.generationID].lease != Stored(held) || held.expiresAt <= now {
        Do(Nothing, now);
        return StaleFence, lease, action, faulted;
      }
      lease := held.(expiresAt := now + ttl);
      action, err, faulted := DurableOrNot(Renew(held, lease), now, NoError);
    }

    /** A lease may be released after it has expired. */
    method ReleaseLease(lease: Lease, now: nat) returns (err: Err, action: Action, faulted: bool)
      requires Valid() && clock <= now
      modifies this
      ensures Did(action, now)
      ensures err == NoError ==>
        action == Withdraw(lease.generationID) && old(InPlace(Now().disk, lease)) && !Held(Now(), lease.fence)
      ensures err != NoError ==>
        action == Nothing || (err == Rejected && action == Withdraw(lease.generationID)
          && old(InPlace(Now().disk, lease)))
      ensures !faulted ==> (err == NoError <==> old(InPlace(Now().disk, lease)))
      ensures err in {NoError, Rejected, StaleFence}
      ensures !faulted ==>
        (err == Rejected <==> !ValidOwner(lease.owner) || !old(Loads(Now().disk, lease.generationID)))
      ensures fence == old(fence)
      ensures err == NoError ==>
        var id := lease.generationID;
        && old(Loads(Now().disk, id)) && old(generations)[id].lease == Stored(lease)
        && generations == old(generations)[id := old(generations)[id].(lease := Absent)]
    {
      hide ValidRun, At, ValidOwner, ValidGenerationID;
      action, faulted := Nothing, false;
      if !ValidOwner(lease.owner) || !ValidGenerationID(lease.generationID) {
        Do(Nothing, now);
        return Rejected, action, faulted;
      }
      faulted := *;
      if faulted || !Loads(Disk(fence, generations), lease.generationID) {
        Do(Nothing, now);
        return Rejected, action, faulted;
      }
      faulted := *;
      if faulted || generations[lease.generationID].lease != Stored(lease) {
        Do(Nothing, now);
        return StaleFence, action, faulted;
      }
      SoundAlways(start, steps, |steps|);
      ReleaseEndsFence(Now(), lease, now);
      action, err, faulted := DurableOrNot(Withdraw(lease.generationID), now, NoError);
    }

    method AssertLease(lease: Lease, now: nat) returns (err: Err, faulted: bool)
      requires Valid() && clock <= now
      modifies this
      ensures Did(Nothing, now) && fence == old(fence) && generations == old(generations)
      ensures err == NoError ==> Passes(Now(), lease)
      ensures !faulted ==> (err == NoError <==> Passes(Now(), lease))
      ensures !faulted ==>
        var loads := ValidOwner(lease.owner) && Loads(Now().disk, lease.generationID);
        && (err == Rejected <==> !loads)
        && (err == NoError <==>
              loads && generations[lease.generationID].lease == Stored(lease) && now < lease.expiresAt)
      ensures err in {NoError, Rejected, StaleFence}
    {
      hide ValidRun, At, ValidOwner, ValidGenerationID;
      faulted := *;
      Do(Nothing, now);
      if !ValidGenerationID(lease.generationID) || !ValidOwner(lease.owner) {
        return Rejected, false;
      }
      if faulted || !Loads(Disk(fence, generations), lease.generationID) {
        return Rejected, faulted;
      }
      faulted := *;
      if faulted || generations[lease.generationID].lease != Stored(lease) {
        return StaleFence, faulted;
      }
      if lease.expiresAt <= now {
        return StaleFence, faulted;
      }
      return NoError, faulted;
    }

    /** Recover: after it returns well no lease passes and no runtime is owned, and
        what is left in place is what was active with no lease or a well-formed one;
        the rest has been moved aside. */
    method Recover(now: nat) returns (ok: bool, faulted: bool)
      requires Valid() && clock <= now
      modifies this
      ensures Valid() && start == old(start) && old(steps) <= steps && fence == old(fence)
      ensures ok ==> forall id | id in generations :: generations[id] == Generation(Active, Absent, Free)
      ensures ok ==> forall f :: !Held(Now(), f)
      ensures ok && !faulted ==> forall id :: id in generations <==> (
        && id in old(generations) && old(generations)[id].state == Active
        && (old(generations)[id].lease == Absent
            || exists lease :: old(generations)[id].lease == Stored(lease)
                 && lease.generationID == id && ValidOwner(lease.owner) && lease.fence > 0 && lease.expiresAt > 0))
    {
      hide ValidRun, At, After, Enabled, ValidOwner, ValidGenerationID, Recoverable;
      ok, faulted := RecoverEach(now);
      forall id | id in old(generations) ensures old(Recoverable(Now().disk, id)) <==> (
        && old(generations)[id].state == Active
        && (old(generations)[id].lease == Absent
            || exists lease :: old(generations)[id].lease == Stored(lease)
                 && lease.generationID == id && ValidOwner(lease.owner) && lease.fence > 0 && lease.expiresAt > 0))
      {
        RecoverableExactlyWhen(old(Now().disk), id);
      }
    }

    /** The loop of Recover; it may stop at any generation. */
    method RecoverEach(now: nat) returns (ok: bool, faulted: bool)
      requires Valid() && clock <= now
      modifies this
      ensures Valid() && start == old(start) && old(steps) <= steps && fence == old(fence)
      ensures ok ==> forall id | id in generations :: generations[id] == Generation(Active, Absent, Free)
      ensures ok ==> forall f :: !Held(Now(), f)
      ensures ok && !faulted ==> forall id ::
        (id in generations <==> id in old(generations) && old(Recoverable(Now().disk, id)))
    {
      hide ValidRun, At, After, Enabled, ValidOwner, ValidGenerationID;
      ok, faulted := true, false;
      var todo := generations.Keys;
      while todo != {}
        invariant Valid() && start == old(start) && old(steps) <= steps && fence == old(fence) && clock <= now
        invariant todo <= generations.Keys <= old(generations.Keys)
        invariant forall id | id in todo :: generations[id] == old(generations)[id]
        invariant forall id | id in generations && id !in todo :: generations[id] == Generation(Active, Absent, Free)
        invariant !faulted ==> forall id | id in old(generations) && id !in todo :: id in generations <==>
          old(Recoverable(Now().disk, id))
        decreases |todo|
      {
        if * {
          return false, true;
        }
        var id :| id in todo;
        var fault: bool;
        ok, fault := RecoverOne(id, now);
        if !ok {
          return ok, true;
        }
        faulted := faulted || fault;
        todo := todo - {id};
      }
    }

    method RecoverOne(id: string, now: nat) returns (ok: bool, faulted: bool)
      requires Valid() && clock <= now && id in generations
      modifies this
      ensures Valid() && start == old(start) && old(steps) <= steps && fence == old(fence) && clock <= now
      ensures forall other | other != id :: other in generations <==> other in old(generations)
      ensures forall other | other != id && other in generations :: generations[other] == old(generations)[other]
      ensures ok && id in generations ==> generations[id] == Generation(Active, Absent, Free)
      ensures ok && !faulted ==> (id in generations <==> old(Recoverable(Now().disk, id)))
    {
      hide ValidRun, At, ValidOwner, ValidGenerationID;
      faulted := *;
      var disk := Disk(fence, generations);
      if faulted || !Recoverable(disk, id) {
        ok := *;
        var moved: bool := *;
        Do(if ok || moved then Vanish(id) else Nothing, now);
        return ok, faulted;
      }
      ok := *;
      var removed: bool := *;
      Do(if ok || removed then Withdraw(id) else Nothing, now);
      if ok {
        ok := *;
        removed := *;
        Do(if ok || removed then Unreserve(id) else Nothing, now);
      }
    }

    /** DiscardGeneration: never while a lease file stands there, whatever it
        says, as long as the file can be seen. */
    method DiscardGeneration(id: string, now: nat) returns (err: Err, action: Action, faulted: bool)
      requires Valid() && clock <= now
      modifies this
      ensures Did(action, now)
      ensures !faulted ==> (err == LeaseBusy <==>
        ValidGenerationID(id) && id in old(generations) && !old(generations)[id].lease.Absent?)
      ensures err == NoError ==> id !in generations
      ensures !faulted && action != Nothing ==> old(Live(Now().disk, id)) == Absent
      ensures action in {Nothing, Vanish(id)} || (action.Tear? && action.id == id)
      ensures !faulted && action.Tear? ==> !action.noLease
    {
      hide ValidRun, At, ValidOwner;
      action, faulted := Nothing, false;
      if !ValidGenerationID(id) {
        Do(Nothing, now);
        return Rejected, action, faulted;
      }
      faulted := *;
      if id !in generations {
        Do(Nothing, now);
        err := NoError;
        if * {
          err := Rejected;
        }
        return err, action, false;
      }
      if !faulted && !generations[id].lease.Absent? {
        Do(Nothing, now);
        return LeaseBusy, action, faulted;
      }
      err, action := NoError, Vanish(id);
      if * {
        err := Rejected;
        if * {
          var metadata: bool, lease: bool, owner: bool := *, *, *;
          action := Tear(id, metadata, lease && faulted, owner);
        }
      }
      Do(action, now);
    }

    /** ReserveRuntime: asserts the lease, lets go of the lock, and takes it
        again to write the reservation. `asserted` and `locked` count the steps taken
        by the first lock and before the second. */
    method ReserveRuntime(lease: Lease, owner: string, now: nat, others: seq<Step>, delay: nat)
      returns (err: Err, ghost asserted: nat, ghost locked: nat, faulted: bool)
      requires Valid() && clock <= now
      modifies this
      ensures Valid() && start == old(start) && old(steps) <= steps
      ensures |old(steps)| <= asserted <= locked <= |steps|
      ensures err == NoError ==>
        && asserted < |steps| && Passes(At(start, steps, asserted), lease)
        && steps[|steps| - 1].action == Reserve(lease.generationID, owner, lease.fence)
        && Occupied(Now().disk, Reserve(lease.generationID, owner, lease.fence))
      ensures !faulted ==>
        var granted := Passes(old(Now()).(now := now), lease) && ValidOwner(owner)
          && Loads(At(start, steps, locked).disk, lease.generationID);
        && (err == NoError <==> granted && !Owned(At(start, steps, locked).disk, lease.generationID))
        && (err == LeaseBusy <==> granted && Owned(At(start, steps, locked).disk, lease.generationID))
    {
      hide ValidRun, ValidOwner, ValidGenerationID, Enabled, After, Passes;
      err, faulted := AssertLease(lease, now);
      asserted, locked := |steps|, |steps|;
      if err != NoError {
        return err, asserted, locked, faulted;
      }
      if !ValidOwner(owner) {
        return Rejected, asserted, locked, faulted;
      }
      ghost var before := steps;
      Others(others);
      locked := |steps|;
      AtPrefix(start, before, steps[|before|..], asserted);
      assert before + steps[|before|..] == steps;
      ghost var longer := steps;
      err, faulted := Reserved(lease, owner, clock + delay);
      AtPrefix(start, longer, steps[|longer|..], asserted);
      AtPrefix(start, longer, steps[|longer|..], locked);
      assert longer + steps[|longer|..] == steps;
    }

    /** What ReserveRuntime does under the second lock. */
    method Reserved(lease: Lease, owner: string, now: nat) returns (err: Err, faulted: bool)
      requires Valid() && clock <= now && ValidOwner(owner)
      modifies this
      ensures Valid() && start == old(start) && old(steps) <= steps
      ensures err == NoError ==>
        && old(steps) < steps
        && steps[|steps| - 1].action == Reserve(lease.generationID, owner, lease.fence)
        && Occupied(Now().disk, Reserve(lease.generationID, owner, lease.fence))
      ensures !faulted ==>
        && (err == NoError <==> old(Loads(Now().disk, lease.generationID) && !Owned(Now().disk, lease.generationID)))
        && (err == LeaseBusy <==> old(Loads(Now().disk, lease.generationID) && Owned(Now().disk, lease.generationID)))
    {
      hide ValidRun, At, ValidOwner, ValidGenerationID;
      faulted := *;
      var id := lease.generationID;
      if faulted || !Loads(Disk(fence, generations), id) {
        return Rejected, faulted;
      }
      if generations[id].runtime != Free {
        return LeaseBusy, faulted;
      }
      var done;
      done, err, faulted := DurableOrNot(Reserve(id, owner, lease.fence), now, NoError);
    }
  }

  lemma {:induction false} RecoverableExactlyWhen(disk: Disk, id: string)
    requires id in disk.generations && ValidGenerationID(id)
    ensures Recoverable(disk, id) <==>
      && disk.generations[id].state == Active
      && (disk.generations[id].lease == Absent
          || exists lease :: disk.generations[id].lease == Stored(lease)
               && lease.generationID == id && ValidOwner(lease.owner) && lease.fence > 0 && lease.expiresAt > 0)
  {
    hide ValidOwner, ValidGenerationID;
    if disk.generations[id].lease.Stored? {
      assert disk.generations[id].lease == Stored(disk.generations[id].lease.lease);
    }
  }

  /** Some owner has the generation's runtime. */
  predicate Owned(disk: Disk, id: string)
  {
    id in disk.generations && disk.generations[id].runtime.Taken?
  }

  lemma {:induction false} IDsStayValid(m: Moment, step: Step)
    requires Enabled(m, step) && forall id | id in m.disk.generations :: ValidGenerationID(id)
    ensures forall id | id in Effect(m.disk, step.action).generations :: ValidGenerationID(id)
  {
    hide Live, ValidOwner;
  }

  lemma {:induction false} EnabledIsLater(m: Moment, step: Step)
    requires Enabled(m, step)
    ensures m.now <= step.now
  {
  }

  lemma {:induction false} ReleaseEndsFence(m: Moment, lease: Lease, now: nat)
    requires Sound(m.disk) && InPlace(m.disk, lease) && m.now <= now
    ensures !Held(After(m, Step(Withdraw(lease.generationID), now)), lease.fence)
  {
    var step := Step(Withdraw(lease.generationID), now);
    var next := After(m, step);
    assert Enabled(m, step);
    hide Live, Loads, ValidOwner, ValidGenerationID, Effect;
    if other: Lease :| other.fence == lease.fence && Passes(next, other) {
      LiveAfter(m, step, other.generationID);
    }
  }
}
