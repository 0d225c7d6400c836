/** The job graph of the scheduler and its validation
    (internal/scheduler/scheduler.go). */
module Jobs {

  datatype Resources = Resources(cpu: int, memory: int)

  datatype Job = Job(id: string, taskID: string, runtimeID: string, class_: string,
                     resources: Resources, dependsOn: seq<string>, runnable: bool)

  /** The three results of validateGraph: nil, ErrRejected and ErrCycle. */
  datatype Verdict = Accepted | Rejected | Cycle

  type Graph = map<string, Job>

  predicate ValidJob(job: Job)
  {
    && job.id != "" && job.taskID != "" && job.runtimeID != "" && job.class_ != ""
    && job.resources.cpu > 0 && job.resources.memory > 0 && job.runnable
  }

  ghost predicate AllValid(jobs: seq<Job>)
  {
    forall i | 0 <= i < |jobs| :: ValidJob(jobs[i])
  }

  ghost predicate UniqueIDs(jobs: seq<Job>)
  {
    forall i, j | 0 <= i < j < |jobs| :: jobs[i].id != jobs[j].id
  }

  /** `g` indexes exactly the jobs of the list by their id. */
  ghost predicate Indexes(g: Graph, jobs: seq<Job>)
  {
    && (forall i | 0 <= i < |jobs| :: jobs[i].id in g && g[jobs[i].id] == jobs[i])
    && (forall id | id in g :: exists i :: 0 <= i < |jobs| && jobs[i].id == id)
  }

  ghost predicate Closed(g: Graph)
  {
    forall id, d | id in g && d in g[id].dependsOn :: d in g
  }

  ghost predicate Edge(g: Graph, a: string, b: string)
  {
    a in g && b in g[a].dependsOn
  }

  ghost predicate IsPath(g: Graph, p: seq<string>)
  {
    |p| > 0 && forall i | 0 <= i < |p| - 1 :: Edge(g, p[i], p[i + 1])
  }

  /** Some job depends on itself through one or more dependency edges. */
  ghost predicate Cyclic(g: Graph)
  {
    exists p: seq<string> :: IsCycle(g, p)
  }

  ghost predicate IsCycle(g: Graph, p: seq<string>)
  {
    |p| >= 2 && IsPath(g, p) && p[0] == p[|p| - 1]
  }

  /** A list in which every job comes after all of its dependencies. */
  ghost predicate TopologicalOrder(g: Graph, order: seq<string>)
  {
    && (forall i | 0 <= i < |order| :: order[i] in g)
    && (forall i, d | 0 <= i < |order| && d in g[order[i]].dependsOn :: d in order[..i])
  }

  function Elements(s: seq<string>): (r: set<string>)
    ensures forall x :: x in r <==> x in s
  {
    set x | x in s
  }

  /** What a topological order promises: with all dependencies listed first,
      no dependency chain returns to its start. */
  lemma {:induction false} TopologicalOrderIsAcyclic(g: Graph, order: seq<string>)
    requires TopologicalOrder(g, order)
    requires forall id | id in g :: id in order
    ensures !Cyclic(g)
  {
    forall p: seq<string> ensures !IsCycle(g, p) {
      forall start | 0 <= start < |order| && IsCycle(g, p) ensures order[start] != p[0] {
        NotOnCycle(g, order, p, start);
      }
      assert IsCycle(g, p) ==> Edge(g, p[0], p[1]);
    }
  }

  /** Following `n` edges of a path moves strictly towards the front. */
  lemma {:induction false} PathDescends(g: Graph, order: seq<string>, p: seq<string>, n: nat, start: nat)
    returns (at: nat)
    requires TopologicalOrder(g, order) && IsPath(g, p) && n < |p|
    requires start < |order| && order[start] == p[0]
    ensures at < |order| && order[at] == p[n] && at + n <= start
  {
    if n == 0 {
      at := start;
    } else {
      var previous := PathDescends(g, order, p, n - 1, start);
      assert Edge(g, p[n - 1], p[n]);
      assert p[n] in order[..previous];
      at :| 0 <= at < previous && order[at] == p[n];
    }
  }

  /** A cycle would come back to its start at an ever earlier position. */
  lemma {:induction false} NotOnCycle(g: Graph, order: seq<string>, p: seq<string>, start: nat)
    requires TopologicalOrder(g, order) && IsCycle(g, p) && start < |order|
    ensures order[start] != p[0]
    decreases start
  {
    if order[start] == p[0] {
      var at := PathDescends(g, order, p, |p| - 1, start);
      NotOnCycle(g, order, p, at);
    }
  }

  ghost predicate WaitsWithin(g: Graph, s: set<string>, id: string)
  {
    id in g && exists d :: d in g[id].dependsOn && d in s
  }

  /** In an acyclic graph every nonempty set of jobs has one that waits for
      none of the others. */
  lemma {:induction false} SourceExists(g: Graph, s: set<string>) returns (id: string)
    requires !Cyclic(g) && s != {}
    ensures id in s && !WaitsWithin(g, s, id)
  {
    if forall x | x in s :: WaitsWithin(g, s, x) {
      var p := WalkWithin(g, s, |s|);
      var i, j := RepeatedElement(p, s);
      SubPath(g, p, i, j + 1);
      assert IsCycle(g, p[i..j + 1]);
      assert false;
    } else {
      id :| id in s && !WaitsWithin(g, s, id);
    }
  }

  lemma {:induction false} SubPath(g: Graph, p: seq<string>, i: nat, j: nat)
    requires IsPath(g, p) && i < j <= |p|
    ensures IsPath(g, p[i..j])
  {
    var q := p[i..j];
    forall k | 0 <= k < |q| - 1 ensures Edge(g, q[k], q[k + 1]) {
      assert Edge(g, p[i + k], p[i + k + 1]);
    }
  }

  lemma {:induction false} ExtendPath(g: Graph, p: seq<string>, d: string)
    requires IsPath(g, p) && Edge(g, p[|p| - 1], d)
    ensures IsPath(g, p + [d])
  {
    var q := p + [d];
    forall k | 0 <= k < |q| - 1 ensures Edge(g, q[k], q[k + 1]) {
      if k < |p| - 1 {
        assert Edge(g, p[k], p[k + 1]);
      }
    }
  }

  lemma {:induction false} WalkWithin(g: Graph, s: set<string>, n: nat) returns (p: seq<string>)
    requires s != {}
    requires forall x | x in s :: WaitsWithin(g, s, x)
    ensures |p| == n + 1 && IsPath(g, p) && forall i | 0 <= i < |p| :: p[i] in s
  {
    if n == 0 {
      var x :| x in s;
      p := [x];
    } else {
      var q := WalkWithin(g, s, n - 1);
      assert WaitsWithin(g, s, q[|q| - 1]);
      var d :| d in g[q[|q| - 1]].dependsOn && d in s;
      ExtendPath(g, q, d);
      p := q + [d];
    }
  }

  lemma {:induction false} RepeatedElement(p: seq<string>, s: set<string>) returns (i: nat, j: nat)
    requires |p| > |s| && forall k | 0 <= k < |p| :: p[k] in s
    ensures i < j < |p| && p[i] == p[j]
  {
    if p[|p| - 1] in p[..|p| - 1] {
      j := |p| - 1;
      i :| 0 <= i < j && p[i] == p[j];
    } else {
      i, j := RepeatedElement(p[..|p| - 1], s - {p[|p| - 1]});
    }
  }

  lemma {:induction false} AppendToOrder(g: Graph, order: seq<string>, id: string)
    requires TopologicalOrder(g, order) && id in g
    requires forall d | d in g[id].dependsOn :: d in order
    ensures TopologicalOrder(g, order + [id])
  {
    var longer := order + [id];
    forall k, d | 0 <= k < |longer| && d in g[longer[k]].dependsOn ensures d in longer[..k] {
      assert longer[..k] == order[..k];
    }
  }

  /** A closed graph without cycles can be listed dependencies first: any list
      of finished jobs extends to the whole graph. */
  lemma {:induction false} TopologicalOrderExists(g: Graph, done: seq<string>) returns (order: seq<string>)
    requires Closed(g) && !Cyclic(g)
    requires TopologicalOrder(g, done)
    ensures TopologicalOrder(g, order) && done <= order && Elements(order) == g.Keys
    decreases g.Keys - Elements(done)
  {
    var waiting := g.Keys - Elements(done);
    if waiting == {} {
      order := done;
      assert forall x | x in Elements(done) :: x in g;
      assert forall x | x in g :: x !in waiting;
    } else {
      var id := SourceExists(g, waiting);
      AppendToOrder(g, done, id);
      order := TopologicalOrderExists(g, done + [id]);
    }
  }

  /** The depth-first walk of validateGraph with its two marking maps. */
  class Walk {
    const g: Graph
    var visiting: set<string>
    var visited: set<string>
    ghost var order: seq<string>   // ids in the order in which their visit ended

    constructor (g: Graph)
      ensures this.g == g && visiting == {} && Valid()
    {
      this.g := g;
      visiting, visited, order := {}, {}, [];
    }

    ghost predicate Valid()
      reads this
    {
      && TopologicalOrder(g, order)
      && visited == Elements(order)
      && visiting !! visited
      && visiting <= g.Keys
    }

    /** `path` is the chain of ids now being visited, ending in an edge to `id`. */
    method Visit(id: string, ghost path: seq<string>) returns (verdict: Verdict)
      requires Valid() && id in g
      requires visiting == Elements(path) && IsPath(g, path + [id])
      modifies this
      ensures verdict == Cycle ==> Cyclic(g)
      ensures verdict == Rejected ==> !Closed(g)
      ensures verdict == Accepted ==>
        && Valid() && visiting == old(visiting)
        && id in visited && old(visited) <= visited
      decreases g.Keys - visiting
    {
      if id in visiting {
        ghost var i :| 0 <= i < |path| && path[i] == id;
        SubPath(g, path + [id], i, |path| + 1);
        assert IsCycle(g, (path + [id])[i..]);
        return Cycle;
      }
      if id in visited {
        return Accepted;
      }
      visiting := visiting + {id};
      var deps := g[id].dependsOn;
      ghost var here := path + [id];
      var i := 0;
      while i < |deps|
        invariant 0 <= i <= |deps|
        invariant Valid() && visiting == old(visiting) + {id} == Elements(here)
        invariant old(visited) <= visited
        invariant forall k | 0 <= k < i :: deps[k] in visited
      {
        var dep := deps[i];
        if dep !in g {
          return Rejected;
        }
        ExtendPath(g, here, dep);
        verdict := Visit(dep, here);
        if verdict != Accepted {
          return;
        }
        i := i + 1;
      }
      visiting := visiting - {id};
      visited := visited + {id};
      AppendToOrder(g, order, id);
      order := order + [id];
      return Accepted;
    }
  }

  /** validateGraph. */
  method ValidateGraph(jobs: seq<Job>) returns (verdict: Verdict, byID: Graph)
    ensures verdict == Accepted <==>
      AllValid(jobs) && UniqueIDs(jobs) && Closed(byID) && !Cyclic(byID)
    ensures AllValid(jobs) && UniqueIDs(jobs) ==> Indexes(byID, jobs)
    ensures verdict == Cycle ==> AllValid(jobs) && UniqueIDs(jobs) && Cyclic(byID)
    ensures verdict == Rejected ==> !AllValid(jobs) || !UniqueIDs(jobs) || !Closed(byID)
  {
    var ok;
    ok, byID := IndexJobs(jobs);
    verdict := Rejected;
    if ok {
      verdict := WalkAll(byID);
    }
  }

  method IndexJobs(jobs: seq<Job>) returns (ok: bool, byID: Graph)
    ensures ok <==> AllValid(jobs) && UniqueIDs(jobs)
    ensures ok ==> Indexes(byID, jobs)
  {
    byID := map[];
    var i := 0;
    while i < |jobs|
      invariant 0 <= i <= |jobs|
      invariant forall k | 0 <= k < i :: ValidJob(jobs[k]) && jobs[k].id in byID && byID[jobs[k].id] == jobs[k]
      invariant forall k, l | 0 <= k < l < i :: jobs[k].id != jobs[l].id
      invariant forall id | id in byID :: exists k :: 0 <= k < i && jobs[k].id == id
    {
      if !ValidJob(jobs[i]) {
        return false, byID;
      }
      if jobs[i].id in byID {
        return false, byID;
      }
      byID := byID[jobs[i].id := jobs[i]];
      i := i + 1;
    }
    ok := true;
  }

  /** The visits of validateGraph, in whatever order the map hands out ids. */
  method WalkAll(byID: Graph) returns (verdict: Verdict)
    ensures verdict == Accepted <==> Closed(byID) && !Cyclic(byID)
    ensures verdict == Cycle ==> Cyclic(byID)
    ensures verdict == Rejected ==> !Closed(byID)
  {
    var walk := new Walk(byID);
    var remaining := byID.Keys;
    while remaining != {}
      invariant walk.Valid() && walk.g == byID && walk.visiting == {} && fresh(walk)
      invariant remaining <= byID.Keys && byID.Keys - remaining <= walk.visited
      decreases remaining
    {
      var id :| id in remaining;
      assert IsPath(byID, [] + [id]);
      verdict := walk.Visit(id, []);
      if verdict != Accepted {
        return;
      }
      remaining := remaining - {id};
    }
    assert Closed(byID) by {
      forall id, d | id in byID && d in byID[id].dependsOn ensures d in byID {
        assert id in walk.order;
        ghost var k :| 0 <= k < |walk.order| && walk.order[k] == id;
        assert d in walk.order[..k];
      }
    }
    TopologicalOrderIsAcyclic(byID, walk.order);
    return Accepted;
  }
}
