/** The durable run and event tables (internal/events/store.go), as far as the
    autonomous loop uses them. Whether a call fails, and whether a failed write has
    reached the disk all the same, is a parameter of the call. */
module EventStore {

  const MAX_PAGE := 1000

  datatype Run = Run(repositoryID: string, candidateSnapshot: string, environmentID: string, policyVersion: string,
                     status: string)
  datatype Event<P> = Event(sequence: nat, kind: string, payload: P)

  /** What becomes of a write: it succeeds, or it fails and may have been kept. */
  datatype Write = Written | Unwritten(kept: bool)

  predicate Reaches(write: Write)
  {
    write.Written? || write.kept
  }

  /** The numbers of a run's events are 1, 2, 3 and so on. */
  ghost predicate GapFree<P>(log: seq<Event<P>>)
  {
    forall i | 0 <= i < |log| :: log[i].sequence == i + 1
  }

  function Min(a: int, b: int): int
  {
    if a <= b then a else b
  }

  function Rebound(run: Run, candidateSnapshot: string, environmentID: string, policyVersion: string): Run
  {
    run.(candidateSnapshot := candidateSnapshot, environmentID := environmentID, policyVersion := policyVersion)
  }

  predicate ValidStatus(status: string)
  {
    status in {"created", "running", "completed", "failed", "stopped"}
  }

  class Store<P> {
    var runs: map<string, Run>
    var events: map<string, seq<Event<P>>>

    constructor ()
      ensures Valid() && runs == map[] && events == map[]
    {
      runs, events := map[], map[];
    }

    ghost predicate Valid()
      reads this
    {
      events.Keys <= runs.Keys && forall id | id in events :: GapFree(events[id])
    }

    function Log(runID: string): seq<Event<P>>
      reads this
    {
      if runID in events then events[runID] else []
    }

    /** CreateRun: a run is created once. */
    method CreateRun(runID: string, run: Run, write: Write) returns (ok: bool)
      requires Valid()
      modifies this`runs
      ensures Valid()
      ensures ok <==> ValidStatus(run.status) && runID !in old(runs) && write.Written?
      ensures runs == if ValidStatus(run.status) && runID !in old(runs) && Reaches(write) then old(runs)[runID := run]
        else old(runs)
    {
      if !ValidStatus(run.status) || runID in runs {
        return false;
      }
      if Reaches(write) {
        runs := runs[runID := run];
      }
      return write.Written?;
    }

    /** AppendEvent: one more than the largest number so far. */
    method AppendEvent(runID: string, kind: string, payload: P, write: Write) returns (ok: bool)
      requires Valid()
      modifies this`events
      ensures Valid()
      ensures ok <==> runID in runs && write.Written?
      ensures Log(runID) == if runID in runs && Reaches(write)
        then old(Log(runID)) + [Event(|old(Log(runID))| + 1, kind, payload)] else old(Log(runID))
      ensures forall other | other != runID :: Log(other) == old(Log(other))
    {
      var log := Log(runID);
      var sequence := 1 + if log == [] then 0 else log[|log| - 1].sequence;
      if runID !in runs {
        return false;
      }
      if Reaches(write) {
        events := events[runID := log + [Event(sequence, kind, payload)]];
      }
      return write.Written?;
    }

    /** ListEvents: up to `limit` events after the given number, in order. */
    method ListEvents(runID: string, after: nat, limit: int, read: bool) returns (ok: bool, page: seq<Event<P>>)
      requires Valid()
      ensures ok <==> 0 < limit <= MAX_PAGE && read
      ensures ok ==>
        page == (if after <= |Log(runID)| then Log(runID)[after..Min(after + limit, |Log(runID)|)] else [])
    {
      page := [];
      if limit <= 0 || limit > MAX_PAGE {
        return false, page;
      }
      if !read {
        return false, page;
      }
      var rows := Log(runID);
      var i := 0;
      while i < |rows| && |page| < limit
        invariant 0 <= i <= |rows| && |page| <= limit
        invariant page == if i <= after then [] else rows[after..i]
      {
        if rows[i].sequence > after {
          page := page + [rows[i]];
        }
        i := i + 1;
      }
      return true, page;
    }

    /** UpdateRunBinding: the repository stays, the rest of the binding moves. */
    method UpdateRunBinding(runID: string, candidateSnapshot: string, environmentID: string, policyVersion: string,
                            write: Write)
      returns (ok: bool)
      requires Valid()
      modifies this`runs
      ensures Valid()
      ensures var may := runID in old(runs) && candidateSnapshot != "" && environmentID != "" && policyVersion != "";
        && (ok <==> may && write.Written?)
        && runs == if !may || !Reaches(write) then old(runs) else
          old(runs)[runID := Rebound(old(runs)[runID], candidateSnapshot, environmentID, policyVersion)]
    {
      if candidateSnapshot == "" || environmentID == "" || policyVersion == "" || runID !in runs {
        return false;
      }
      if Reaches(write) {
        runs := runs[runID := Rebound(runs[runID], candidateSnapshot, environmentID, policyVersion)];
      }
      return write.Written?;
    }

    method UpdateRunStatus(runID: string, status: string, write: Write) returns (ok: bool)
      requires Valid()
      modifies this`runs
      ensures Valid() && runs.Keys == old(runs.Keys)
      ensures ok <==> runID in old(runs) && ValidStatus(status) && write.Written?
      ensures runs == if runID in old(runs) && ValidStatus(status) && Reaches(write)
        then old(runs)[runID := old(runs)[runID].(status := status)] else old(runs)
    {
      if !ValidStatus(status) || runID !in runs {
        return false;
      }
      if Reaches(write) {
        runs := runs[runID := runs[runID].(status := status)];
      }
      return write.Written?;
    }
  }
}
