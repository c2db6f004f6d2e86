/** The agent task graph (crates/orchestration/src/dag.rs): the graph as a value,
    and the class whose methods update it. */
module TaskGraphs {
  import opened Common
  import opened TextOrder

  datatype Status = Pending | Running | Succeeded | Failed | Cancelled

  datatype TaskNode = TaskNode(
    taskId: string,
    role: string,
    prompt: string,
    dependencies: seq<string>,
    status: Status,
    assignedRunId: Option<string>,
    outputSummary: Option<string>)

  type Nodes = map<string, TaskNode>

  datatype GraphError =
    | DuplicateTask(id: string)
    | MissingDependency(task: string, dependency: string)
    | CycleDetected
    | TaskNotFound(id: string)

  /** What a graph says about scheduling: who waits for whom, and the statuses. */
  datatype Graph = Graph(deps: map<string, set<string>>, status: map<string, Status>)

  function Waits(node: TaskNode): set<string> {
    set d | d in node.dependencies
  }

  function AbstractGraph(nodes: Nodes): (g: Graph)
    ensures g.deps.Keys == g.status.Keys == nodes.Keys
  {
    Graph(map id | id in nodes :: Waits(nodes[id]), map id | id in nodes :: nodes[id].status)
  }

  ghost predicate WellFormed(g: Graph) {
    g.deps.Keys == g.status.Keys
  }

  // ----- Validity -----

  ghost predicate DependenciesExist(g: Graph) {
    forall id, d :: id in g.deps && d in g.deps[id] ==> d in g.deps
  }

  /** `path` follows dependencies: each task waits for the next. */
  ghost predicate DependencyPath(g: Graph, path: seq<string>) {
    && path != []
    && forall i :: 0 <= i < |path| - 1 ==> path[i] in g.deps && path[i + 1] in g.deps[path[i]]
  }

  ghost predicate Acyclic(g: Graph) {
    !exists path :: DependencyPath(g, path) && |path| > 1 && path[0] == path[|path| - 1]
  }

  ghost predicate Valid(g: Graph) {
    WellFormed(g) && DependenciesExist(g) && Acyclic(g)
  }

  /** `order` lists tasks so that each comes after everything it waits for. */
  ghost predicate TopologicalOrder(g: Graph, order: seq<string>) {
    && NoDuplicates(order)
    && forall k :: 0 <= k < |order| ==> order[k] in g.deps && g.deps[order[k]] <= Elements(order[..k])
  }

  /** Along a dependency path inside an ordered set the position decreases. */
  lemma PathDescends(g: Graph, order: seq<string>, path: seq<string>, k: nat)
    requires TopologicalOrder(g, order) && DependencyPath(g, path)
    requires k < |order| && order[k] == path[0] && |path| > 1
    ensures exists j :: 0 <= j < k && order[j] == path[|path| - 1]
    decreases |path|
  {
    assert path[1] in g.deps[path[0]];
    assert path[1] in Elements(order[..k]);
    var j :| 0 <= j < k && order[j] == path[1];
    if |path| > 2 {
      var rest := path[1..];
      forall i | 0 <= i < |rest| - 1
        ensures rest[i] in g.deps && rest[i + 1] in g.deps[rest[i]]
      {
        assert rest[i] == path[i + 1] && rest[i + 1] == path[i + 2];
      }
      PathDescends(g, order, rest, j);
    }
  }

  lemma OrderedIsAcyclic(g: Graph, order: seq<string>)
    requires TopologicalOrder(g, order) && Elements(order) == g.deps.Keys
    ensures Acyclic(g)
  {
    forall path | DependencyPath(g, path) && |path| > 1 && path[0] == path[|path| - 1]
      ensures false
    {
      assert path[0] in Elements(order);
      var k :| 0 <= k < |order| && order[k] == path[0];
      PathDescends(g, order, path, k);
    }
  }

  ghost predicate WaitsWithin(g: Graph, id: string, tasks: set<string>) {
    id in g.deps && exists d :: d in g.deps[id] && d in tasks
  }

  /** A path of `n + 1` tasks inside a set in which every task waits for another. */
  lemma LongPath(g: Graph, stuck: set<string>, start: string, n: nat) returns (path: seq<string>)
    requires start in stuck
    requires forall id {:trigger WaitsWithin(g, id, stuck)} :: id in stuck ==> WaitsWithin(g, id, stuck)
    ensures DependencyPath(g, path) && |path| == n + 1
    ensures forall x :: x in path ==> x in stuck
  {
    if n == 0 {
      path := [start];
    } else {
      var front := LongPath(g, stuck, start, n - 1);
      var last := front[|front| - 1];
      assert last in stuck && WaitsWithin(g, last, stuck);
      var d :| d in g.deps[last] && d in stuck;
      path := front + [d];
    }
  }

  /** A nonempty set in which every task waits for another member has a cycle. */
  lemma StuckSetHasCycle(g: Graph, stuck: set<string>)
    requires stuck != {}
    requires forall id {:trigger WaitsWithin(g, id, stuck)} :: id in stuck ==> WaitsWithin(g, id, stuck)
    ensures !Acyclic(g)
  {
    var start :| start in stuck;
    var path := LongPath(g, stuck, start, |stuck|);
    Pigeonhole(path, stuck);
    var i, j :| 0 <= i < j < |path| && path[i] == path[j];
    RepeatIsCycle(g, path, i, j);
  }

  lemma RepeatIsCycle(g: Graph, path: seq<string>, i: nat, j: nat)
    requires DependencyPath(g, path) && i < j < |path| && path[i] == path[j]
    ensures !Acyclic(g)
  {
    PathPart(g, path, i, j + 1);
    CycleIsThere(g, path[i..j + 1]);
  }

  lemma CycleIsThere(g: Graph, cycle: seq<string>)
    requires DependencyPath(g, cycle) && |cycle| > 1 && cycle[0] == cycle[|cycle| - 1]
    ensures !Acyclic(g)
  {
  }

  lemma PathPart(g: Graph, path: seq<string>, from: nat, to: nat)
    requires DependencyPath(g, path) && from < to <= |path|
    ensures DependencyPath(g, path[from..to])
  {
    var part := path[from..to];
    forall k | 0 <= k < |part| - 1
      ensures part[k] in g.deps && part[k + 1] in g.deps[part[k]]
    {
      assert part[k] == path[from + k] && part[k + 1] == path[from + k + 1];
    }
  }

  // ----- Failure and its cascade -----

  /** The failure of `parent` cancels `child`. */
  predicate Hits(g: Graph, parent: string, child: string) {
    && child in g.deps && parent in g.deps[child]
    && child in g.status && g.status[child] == Pending
  }

  /** `path` runs from the failed task through tasks that each wait for the one
      before it, all of them but the first pending. */
  ghost predicate CascadePath(g: Graph, failed: string, path: seq<string>) {
    && path != []
    && if |path| == 1 then path[0] == failed
       else CascadePath(g, failed, path[..|path| - 1]) && Hits(g, path[|path| - 2], path[|path| - 1])
  }

  /** The tasks a failure cancels. */
  ghost predicate Doomed(g: Graph, failed: string, id: string) {
    exists path :: CascadePath(g, failed, path) && |path| > 1 && path[|path| - 1] == id
  }

  /** The failed task's own status changes before the cascade starts. */
  function WithStatus(g: Graph, id: string, status: Status): Graph {
    g.(status := g.status[id := status])
  }

  ghost function Cascaded(g: Graph, failed: string): map<string, Status> {
    map x | x in g.status :: if Doomed(g, failed, x) then Cancelled else g.status[x]
  }

  ghost function FailTask(g: Graph, id: string): (r: Graph)
    requires id in g.status
    ensures r.deps == g.deps && r.status.Keys == g.status.Keys
  {
    var marked := WithStatus(g, id, Failed);
    Graph(g.deps, Cascaded(marked, id))
  }

  // ----- Readiness -----

  predicate Ready(g: Graph, id: string) {
    && id in g.deps && id in g.status && g.status[id] == Pending
    && forall d <- g.deps[id] :: d in g.status && g.status[d] == Succeeded
  }

  predicate Terminal(status: Status) {
    status in {Succeeded, Failed, Cancelled}
  }

  predicate Complete(g: Graph) {
    forall id <- g.status.Keys :: Terminal(g.status[id])
  }

  // ----- The graph object -----

  class TaskGraph {
    var nodes: Nodes

    constructor ()
      ensures nodes == map[]
    {
      nodes := map[];
    }

    function View(): Graph
      reads this
    {
      AbstractGraph(nodes)
    }

    method AddNode(node: TaskNode) returns (r: Result<(), GraphError>)
      modifies this
      ensures if node.taskId in old(nodes)
              then r == Err(DuplicateTask(node.taskId)) && nodes == old(nodes)
              else r == Ok(()) && nodes == old(nodes)[node.taskId := node]
    {
      if node.taskId in nodes {
        return Err(DuplicateTask(node.taskId));
      }
      nodes := nodes[node.taskId := node];
      return Ok(());
    }

    /** Finds a dependency that does not exist, looking at the tasks in any order. */
    method CheckDependencies() returns (r: Result<(), GraphError>)
      ensures r.Ok? <==> DependenciesExist(View())
      ensures r.Err? ==> r.error.MissingDependency? && r.error.task in nodes &&
                         r.error.dependency in nodes[r.error.task].dependencies && r.error.dependency !in nodes
    {
      var todo := nodes.Keys;
      while todo != {}
        invariant todo <= nodes.Keys
        invariant forall id, d :: id in nodes && id !in todo && d in nodes[id].dependencies ==> d in nodes
        decreases todo
      {
        var id :| id in todo;
        todo := todo - {id};
        var deps := nodes[id].dependencies;
        for i := 0 to |deps|
          invariant forall d :: d in deps[..i] ==> d in nodes
        {
          if deps[i] !in nodes {
            assert deps[i] in View().deps[id];
            return Err(MissingDependency(id, deps[i]));
          }
        }
        assert deps[..|deps|] == deps;
      }
      return Ok(());
    }

    /** Accepts a graph exactly when every dependency exists and no task
        depends on itself, directly or not. Duplicate dependencies do not matter. */
    method Validate() returns (r: Result<(), GraphError>)
      ensures r.Ok? <==> Valid(View())
      ensures r.Err? ==> if DependenciesExist(View()) then r.error == CycleDetected else r.error.MissingDependency?
    {
      ghost var g := View();
      var checked := CheckDependencies();
      if checked.Err? {
        return Err(checked.error);
      }
      var visited := VisitAll();
      if visited != |nodes.Keys| {
        return Err(CycleDetected);
      }
      return Ok(());
    }

    /** Pops tasks with nothing left to wait for until there are none; counts them. */
    method VisitAll() returns (visited: nat)
      requires DependenciesExist(View())
      ensures visited == |nodes.Keys| <==> Acyclic(View())
    {
      ghost var g := View();
      visited := 0;
      var queue := StartQueue();
      var tempDeps := map id | id in nodes :: Waits(nodes[id]);
      assert tempDeps == g.deps;
      ghost var popped: seq<string> := [];
      while queue != []
        invariant KahnState(g, popped, queue, tempDeps)
        invariant visited == |popped|
        decreases |g.deps.Keys| - |popped|
      {
        ghost var current := queue[0];
        queue, tempDeps := PopNext(g, popped, queue, tempDeps);
        popped := popped + [current];
        visited := visited + 1;
      }
      KahnVerdict(g, popped, tempDeps);
      assert nodes.Keys == g.deps.Keys;
    }

    method PopNext(ghost g: Graph, ghost popped: seq<string>, queue: seq<string>, tempDeps: map<string, set<string>>)
      returns (newQueue: seq<string>, newDeps: map<string, set<string>>)
      requires queue != [] && KahnState(g, popped, queue, tempDeps)
      ensures KahnState(g, popped + [queue[0]], newQueue, newDeps)
      ensures |popped| < |g.deps.Keys|
    {
      var current, rest := queue[0], queue[1..];
      assert queue == [current] + rest;
      KahnPop(g, popped, current, rest, tempDeps);
      newQueue, newDeps := FinishDependency(g, popped, current, rest, tempDeps);
      KahnRoundDone(g, popped, current, newQueue, newDeps);
    }

    /** Strikes `current` from every task's remaining dependencies, visiting the
        tasks in any order, and queues those that have none left. */
    method FinishDependency(ghost g: Graph, ghost popped: seq<string>, current: string, queue: seq<string>,
                            tempDeps: map<string, set<string>>)
      returns (newQueue: seq<string>, newDeps: map<string, set<string>>)
      requires KahnRound(g, popped, current, queue, tempDeps, tempDeps.Keys)
      ensures KahnRound(g, popped, current, newQueue, newDeps, {})
    {
      newQueue, newDeps := queue, tempDeps;
      var todo := tempDeps.Keys;
      while todo != {}
        invariant todo <= newDeps.Keys
        invariant KahnRound(g, popped, current, newQueue, newDeps, todo)
        decreases todo
      {
        var id :| id in todo;
        KahnStrike(g, popped, current, newQueue, newDeps, todo, id);
        todo := todo - {id};
        if current in newDeps[id] {
          newDeps := newDeps[id := newDeps[id] - {current}];
          if newDeps[id] == {} {
            newQueue := newQueue + [id];
          }
        }
      }
    }

    /** The tasks with no dependencies, in any order. */
    method StartQueue() returns (queue: seq<string>)
      ensures KahnState(View(), [], queue, View().deps)
    {
      queue := [];
      var todo := nodes.Keys;
      while todo != {}
        invariant todo <= nodes.Keys
        invariant NoDuplicates(queue)
        invariant forall id :: id in queue <==> id in nodes && id !in todo && Waits(nodes[id]) == {}
        decreases todo
      {
        var id :| id in todo;
        todo := todo - {id};
        if nodes[id].dependencies == [] {
          queue := queue + [id];
        } else {
          assert nodes[id].dependencies[0] in Waits(nodes[id]);
        }
      }
      KahnStart(View(), queue);
    }

    /** The tasks that may start now, sorted by id. */
    method GetReadyTasks() returns (ready: seq<string>)
      ensures forall id :: id in ready <==> Ready(View(), id)
      ensures forall id :: id in ready <==>
                && id in nodes && nodes[id].status == Pending
                && forall d :: d in nodes[id].dependencies ==> d in nodes && nodes[d].status == Succeeded
      ensures StrictlySorted(ready)
    {
      var found: set<string> := {};
      var todo := nodes.Keys;
      while todo != {}
        invariant todo <= nodes.Keys
        invariant forall id :: id in found <==> id !in todo && Ready(View(), id)
        decreases todo
      {
        var id :| id in todo;
        todo := todo - {id};
        var node := nodes[id];
        if node.status != Pending {
          continue;
        }
        var allSucceeded := true;
        for i := 0 to |node.dependencies|
          invariant allSucceeded <==> forall d :: d in node.dependencies[..i] ==> d in nodes && nodes[d].status == Succeeded
        {
          var d := node.dependencies[i];
          assert node.dependencies[..i + 1] == node.dependencies[..i] + [d];
          allSucceeded := allSucceeded && d in nodes && nodes[d].status == Succeeded;
        }
        assert node.dependencies[..|node.dependencies|] == node.dependencies;
        if allSucceeded {
          found := found + {id};
        }
      }
      ready := SortStrings(found);
    }

    method MarkRunning(id: string, runId: string) returns (r: Result<(), GraphError>)
      modifies this
      ensures if id in old(nodes)
              then r == Ok(()) && nodes == old(nodes)[id := old(nodes)[id].(status := Running, assignedRunId := Some(runId))]
              else r == Err(TaskNotFound(id)) && nodes == old(nodes)
      ensures id in old(nodes) ==> View() == WithStatus(old(View()), id, Running)
    {
      if id !in nodes {
        return Err(TaskNotFound(id));
      }
      nodes := nodes[id := nodes[id].(status := Running, assignedRunId := Some(runId))];
      StatusChange(old(nodes), id, nodes[id]);
      return Ok(());
    }

    method MarkSucceeded(id: string, output: string) returns (r: Result<(), GraphError>)
      modifies this
      ensures if id in old(nodes)
              then r == Ok(()) && nodes == old(nodes)[id := old(nodes)[id].(status := Succeeded, outputSummary := Some(output))]
              else r == Err(TaskNotFound(id)) && nodes == old(nodes)
      ensures id in old(nodes) ==> View() == WithStatus(old(View()), id, Succeeded)
    {
      if id !in nodes {
        return Err(TaskNotFound(id));
      }
      nodes := nodes[id := nodes[id].(status := Succeeded, outputSummary := Some(output))];
      StatusChange(old(nodes), id, nodes[id]);
      return Ok(());
    }

    /** Marks a task failed and cancels everything pending downstream of it. The
        loop visits the tasks in any order, and needs no acyclicity to stop. */
    method MarkFailed(id: string, error: string) returns (r: Result<(), GraphError>)
      modifies this
      ensures if id in old(nodes)
              then r == Ok(()) && View() == FailTask(old(View()), id)
              else r == Err(TaskNotFound(id)) && nodes == old(nodes)
      ensures id in old(nodes) ==>
                && nodes.Keys == old(nodes).Keys
                && nodes[id] == old(nodes)[id].(status := Failed, outputSummary := Some("Error: " + error))
                && forall x :: x in nodes && x != id && nodes[x] != old(nodes)[x] ==>
                     old(nodes)[x].status == Pending && CancelledWith(old(nodes), nodes, x)
    {
      if id !in nodes {
        return Err(TaskNotFound(id));
      }
      nodes := nodes[id := nodes[id].(status := Failed, outputSummary := Some("Error: " + error))];
      StatusChange(old(nodes), id, nodes[id]);
      CascadeFrom(id);
      return Ok(());
    }

    /** Cancels every pending task downstream of `id`, through a worklist. */
    method CascadeFrom(id: string)
      requires id in nodes && nodes[id].status == Failed
      modifies this
      ensures nodes.Keys == old(nodes.Keys)
      ensures View().deps == old(View()).deps
      ensures View().status == Cascaded(old(View()), id)
      ensures nodes[id] == old(nodes)[id]
      ensures forall x :: x in nodes && nodes[x] != old(nodes)[x] ==>
                old(nodes)[x].status == Pending && CancelledWith(old(nodes), nodes, x)
    {
      ghost var start := nodes;
      ghost var g := View();
      ghost var doomed := DoomedTasks(g, id);
      DoomedTasksAreClosed(g, id);
      var toCancel := [id];
      ghost var cancelled: set<string> := {};
      ghost var settled: set<string> := {};
      while toCancel != []
        invariant CascadeState(g, start, nodes, id, doomed, cancelled) && ReasonsGiven(start, nodes, id, cancelled)
        invariant CascadeQueue(g, id, toCancel, settled, cancelled)
        decreases |doomed - cancelled|, |toCancel|
      {
        var parent := toCancel[0];
        ghost var waiting, cancelledBefore := toCancel, cancelled;
        toCancel := toCancel[1..];
        var more;
        more, cancelled := CancelChildren(g, start, id, doomed, cancelled, parent);
        CascadeQueueStep(g, id, waiting, settled, cancelledBefore, more, cancelled);
        CascadeShrinks(doomed, cancelledBefore, more, cancelled);
        toCancel := toCancel + more;
        settled := settled + {parent};
      }
      CascadeComplete(g, start, nodes, id, doomed, cancelled);
      CancelledTellWhy(g, start, nodes, id, doomed, cancelled);
    }

    /** Cancels the pending tasks that wait for `parent`, visiting the tasks in
        any order. */
    method CancelChildren(ghost g: Graph, ghost start: Nodes, ghost failed: string, ghost doomed: set<string>,
                          ghost cancelledBefore: set<string>, parent: string)
      returns (more: seq<string>, ghost cancelled: set<string>)
      requires CascadeState(g, start, nodes, failed, doomed, cancelledBefore) && ReasonsGiven(start, nodes, failed, cancelledBefore)
      requires parent == failed || parent in cancelledBefore
      modifies this
      ensures CascadeState(g, start, nodes, failed, doomed, cancelled) && ReasonsGiven(start, nodes, failed, cancelled)
      ensures forall c :: c in cancelled <==> c in cancelledBefore || c in more
      ensures forall c :: c in more ==> c !in cancelledBefore
      ensures forall c :: Hits(g, parent, c) ==> c in cancelled
    {
      more, cancelled := [], cancelledBefore;
      var todo := nodes.Keys;
      while todo != {}
        invariant todo <= nodes.Keys
        invariant CancelRound(g, start, nodes, failed, doomed, cancelledBefore, parent, more, cancelled, todo)
        decreases todo
      {
        var childId :| childId in todo;
        var child := nodes[childId];
        CancelRoundStep(g, start, nodes, failed, doomed, cancelledBefore, parent, more, cancelled, todo, childId);
        todo := todo - {childId};
        if parent in child.dependencies && child.status == Pending {
          nodes := nodes[childId := child.(status := Cancelled, outputSummary := Some(CancelReason(parent)))];
          more := more + [childId];
          cancelled := cancelled + {childId};
        }
      }
    }

    method IsComplete() returns (r: bool)
      ensures r <==> Complete(View())
      ensures r <==> forall id :: id in nodes ==> nodes[id].status in {Succeeded, Failed, Cancelled}
    {
      r := forall id <- nodes.Keys :: Terminal(nodes[id].status);
    }
  }

  lemma SameWaits(before: Nodes, after: Nodes)
    requires before.Keys == after.Keys
    requires forall id :: id in before ==> after[id].dependencies == before[id].dependencies
    ensures AbstractGraph(after).deps == AbstractGraph(before).deps
  {
  }

  lemma StatusChange(nodes: Nodes, id: string, node: TaskNode)
    requires id in nodes && node.dependencies == nodes[id].dependencies
    ensures AbstractGraph(nodes[id := node]) == WithStatus(AbstractGraph(nodes), id, node.status)
  {
    SameWaits(nodes, nodes[id := node]);
  }

  // ----- Kahn's algorithm -----

  /** Between two pops: the popped tasks are in topological order, a task is
      queued or popped exactly when everything it waits for was popped, and
      what is left of each task's dependencies is what was not popped. */
  ghost predicate KahnState(g: Graph, popped: seq<string>, queue: seq<string>, tempDeps: map<string, set<string>>) {
    && TopologicalOrder(g, popped)
    && NoDuplicates(queue)
    && (forall id :: id in queue ==> id !in popped)
    && tempDeps.Keys == g.deps.Keys
    && (forall id :: id in g.deps ==> tempDeps[id] == g.deps[id] - Elements(popped))
    && (forall id :: id in popped || id in queue <==> id in g.deps && tempDeps[id] == {})
  }

  /** Inside the round for `current`: the tasks not in `todo` have been updated. */
  ghost predicate KahnRound(g: Graph, popped: seq<string>, current: string, queue: seq<string>,
                            tempDeps: map<string, set<string>>, todo: set<string>) {
    && TopologicalOrder(g, popped + [current])
    && NoDuplicates(queue)
    && (forall id :: id in queue ==> id !in popped && id != current)
    && tempDeps.Keys == g.deps.Keys
    && (forall id :: id in g.deps ==>
          tempDeps[id] == if id in todo then g.deps[id] - Elements(popped) else g.deps[id] - Elements(popped) - {current})
    && (forall id :: id in popped || id == current || id in queue <==> id in g.deps && tempDeps[id] == {})
  }

  lemma KahnStart(g: Graph, queue: seq<string>)
    requires NoDuplicates(queue)
    requires forall id :: id in queue <==> id in g.deps && g.deps[id] == {}
    ensures KahnState(g, [], queue, g.deps)
  {
  }

  /** With the queue dry, every task was popped exactly when there is no cycle. */
  lemma KahnVerdict(g: Graph, popped: seq<string>, tempDeps: map<string, set<string>>)
    requires KahnState(g, popped, [], tempDeps) && DependenciesExist(g)
    ensures Acyclic(g) <==> |popped| == |g.deps.Keys|
  {
    if |popped| == |g.deps.Keys| {
      PoppedAreTasks(g, popped);
      NoDuplicatesCardinality(popped);
      SubsetCardinality(Elements(popped), g.deps.Keys);
      OrderedIsAcyclic(g, popped);
    } else {
      KahnStuck(g, popped, tempDeps);
    }
  }

  lemma KahnPop(g: Graph, popped: seq<string>, current: string, queue: seq<string>, tempDeps: map<string, set<string>>)
    requires KahnState(g, popped, [current] + queue, tempDeps)
    ensures KahnRound(g, popped, current, queue, tempDeps, tempDeps.Keys)
  {
    var all := [current] + queue;
    assert all[0] == current && forall i :: 0 <= i < |queue| ==> queue[i] == all[i + 1];
    assert current in all;
    assert NoDuplicates(queue);
    assert current !in queue;
    assert tempDeps[current] == {} && tempDeps[current] == g.deps[current] - Elements(popped);
    assert forall d :: d in g.deps[current] ==> d in Elements(popped) || d in tempDeps[current];
    var order := popped + [current];
    forall k | 0 <= k < |order|
      ensures order[k] in g.deps && g.deps[order[k]] <= Elements(order[..k])
    {
      if k < |popped| {
        assert order[..k] == popped[..k];
      } else {
        assert order[..k] == popped;
      }
    }
  }

  /** A task that waits for nothing but `current` has not been queued before. */
  lemma KahnStrike(g: Graph, popped: seq<string>, current: string, queue: seq<string>, tempDeps: map<string, set<string>>,
                   todo: set<string>, id: string)
    requires KahnRound(g, popped, current, queue, tempDeps, todo) && id in todo && id in g.deps
    ensures current !in tempDeps[id] ==> KahnRound(g, popped, current, queue, tempDeps, todo - {id})
    ensures current in tempDeps[id] ==>
              var struck := tempDeps[id := tempDeps[id] - {current}];
              KahnRound(g, popped, current, if struck[id] == {} then queue + [id] else queue, struck, todo - {id})
  {
    if current in tempDeps[id] {
      KahnStruck(g, popped, current, queue, tempDeps, todo, id);
    } else {
      assert g.deps[id] - Elements(popped) == g.deps[id] - Elements(popped) - {current};
    }
  }

  lemma KahnStruck(g: Graph, popped: seq<string>, current: string, queue: seq<string>, tempDeps: map<string, set<string>>,
                   todo: set<string>, id: string)
    requires KahnRound(g, popped, current, queue, tempDeps, todo) && id in todo && id in g.deps && current in tempDeps[id]
    ensures var struck := tempDeps[id := tempDeps[id] - {current}];
            KahnRound(g, popped, current, if struck[id] == {} then queue + [id] else queue, struck, todo - {id})
  {
    assert tempDeps[id] != {};
    assert id !in queue && id !in popped && id != current;
  }

  lemma KahnRoundDone(g: Graph, popped: seq<string>, current: string, queue: seq<string>, tempDeps: map<string, set<string>>)
    requires KahnRound(g, popped, current, queue, tempDeps, {})
    ensures KahnState(g, popped + [current], queue, tempDeps)
    ensures |popped| < |g.deps.Keys|
  {
    PoppedAreTasks(g, popped + [current]);
    assert Elements(popped + [current]) == Elements(popped) + {current};
  }

  lemma PoppedAreTasks(g: Graph, popped: seq<string>)
    requires TopologicalOrder(g, popped)
    ensures |popped| <= |g.deps.Keys|
    ensures Elements(popped) <= g.deps.Keys
  {
    NoDuplicatesCardinality(popped);
    SubsetCardinality(Elements(popped), g.deps.Keys);
  }

  /** When the queue runs dry early, the tasks left over are stuck on each other. */
  lemma KahnStuck(g: Graph, popped: seq<string>, tempDeps: map<string, set<string>>)
    requires KahnState(g, popped, [], tempDeps) && DependenciesExist(g)
    requires |popped| != |g.deps.Keys|
    ensures !Acyclic(g)
  {
    PoppedAreTasks(g, popped);
    NoDuplicatesCardinality(popped);
    var stuck := g.deps.Keys - Elements(popped);
    assert stuck == {} ==> Elements(popped) == g.deps.Keys;
    forall id | id in stuck
      ensures WaitsWithin(g, id, stuck)
    {
      assert tempDeps[id] != {};
      var d :| d in tempDeps[id];
      assert d in g.deps[id] && d in stuck;
    }
    StuckSetHasCycle(g, stuck);
  }

  // ----- The cascade -----

  ghost predicate ClosedUnderHits(g: Graph, failed: string, tasks: set<string>) {
    forall p, c :: (p == failed || p in tasks) && Hits(g, p, c) ==> c in tasks
  }

  ghost function DoomedTasks(g: Graph, failed: string): set<string> {
    set x | x in g.status && Doomed(g, failed, x)
  }

  lemma DoomedTasksAreClosed(g: Graph, failed: string)
    ensures ClosedUnderHits(g, failed, DoomedTasks(g, failed))
  {
    forall p, c | (p == failed || p in DoomedTasks(g, failed)) && Hits(g, p, c)
      ensures c in DoomedTasks(g, failed)
    {
      assert CascadePath(g, failed, [failed]) && [failed][|[failed]| - 1] == failed;
      var path :| CascadePath(g, failed, path) && path[|path| - 1] == p;
      ExtendCascadePath(g, failed, path, c);
      assert (path + [c])[|path + [c]| - 1] == c;
    }
  }

  lemma ExtendCascadePath(g: Graph, failed: string, path: seq<string>, child: string)
    requires CascadePath(g, failed, path) && Hits(g, path[|path| - 1], child)
    ensures CascadePath(g, failed, path + [child])
  {
    assert (path + [child])[..|path|] == path;
  }

  /** Every closed set holds all doomed tasks. */
  lemma DoomedTasksAreLeast(g: Graph, failed: string, tasks: set<string>, path: seq<string>)
    requires ClosedUnderHits(g, failed, tasks)
    requires CascadePath(g, failed, path) && |path| > 1
    ensures path[|path| - 1] in tasks
    decreases |path|
  {
    var front := path[..|path| - 1];
    if |front| > 1 {
      DoomedTasksAreLeast(g, failed, tasks, front);
    }
    assert front[|front| - 1] == path[|path| - 2];
  }

  /** The nodes are those at the start but for the cancelled ones, each of which
      was pending and doomed. */
  ghost predicate CascadeState(g: Graph, start: Nodes, now: Nodes, failed: string, doomed: set<string>, cancelled: set<string>) {
    && g == AbstractGraph(start)
    && ClosedUnderHits(g, failed, doomed)
    && now.Keys == start.Keys
    && cancelled <= doomed && cancelled <= start.Keys
    && (forall x :: x in start && x !in cancelled ==> now[x] == start[x])
    && (forall x :: x in cancelled ==>
          now[x].dependencies == start[x].dependencies && now[x].status == Cancelled && start[x].status == Pending)
  }

  /** A task as it is cancelled on account of one it depends on. */
  predicate CancelledFor(before: TaskNode, after: TaskNode, parent: string) {
    && parent in before.dependencies
    && after == before.(status := Cancelled, outputSummary := Some(CancelReason(parent)))
  }

  function CancelReason(parent: string): string {
    "Cancelled: prerequisite task '" + parent + "' failed"
  }

  ghost predicate CancelledThrough(before: Nodes, after: Nodes, x: string, parents: set<string>)
    requires x in before && x in after
  {
    exists parent :: parent in parents && CancelledFor(before[x], after[x], parent)
  }

  /** Every cancelled task was cancelled on account of a task that failed or was
      cancelled. */
  ghost predicate ReasonsGiven(start: Nodes, now: Nodes, failed: string, cancelled: set<string>) {
    && now.Keys == start.Keys && cancelled <= start.Keys
    && forall x :: x in cancelled ==> CancelledThrough(start, now, x, cancelled + {failed})
  }

  /** A task cancelled on account of one that has failed or been cancelled. */
  ghost predicate CancelledWith(before: Nodes, after: Nodes, x: string)
    requires x in before && x in after
  {
    exists parent :: parent in after && after[parent].status in {Failed, Cancelled} && CancelledFor(before[x], after[x], parent)
  }

  lemma CancelledTellWhy(g: Graph, start: Nodes, now: Nodes, failed: string, doomed: set<string>, cancelled: set<string>)
    requires CascadeState(g, start, now, failed, doomed, cancelled) && ReasonsGiven(start, now, failed, cancelled)
    requires failed in start && start[failed].status == Failed
    ensures now[failed] == start[failed]
    ensures forall x :: x in now && now[x] != start[x] ==> start[x].status == Pending && CancelledWith(start, now, x)
  {
    forall x | x in now && now[x] != start[x]
      ensures start[x].status == Pending && CancelledWith(start, now, x)
    {
      assert x in cancelled;
      var parent :| parent in cancelled + {failed} && CancelledFor(start[x], now[x], parent);
    }
  }

  /** The loop's test for cancelling a task, in terms of the state at the start. */
  lemma HitsAreVisible(g: Graph, start: Nodes, now: Nodes, failed: string, doomed: set<string>, cancelled: set<string>,
                       parent: string, child: string)
    requires CascadeState(g, start, now, failed, doomed, cancelled)
    requires parent == failed || parent in cancelled
    requires child in now
    ensures parent in now[child].dependencies && now[child].status == Pending <==> Hits(g, parent, child) && child !in cancelled
    ensures Hits(g, parent, child) ==> child in doomed && start[child].status == Pending
  {
  }

  lemma CancelOne(g: Graph, start: Nodes, now: Nodes, failed: string, doomed: set<string>, cancelled: set<string>,
                  child: string, reason: string)
    requires CascadeState(g, start, now, failed, doomed, cancelled)
    requires child in now && child in doomed && child !in cancelled && now[child].status == Pending
    ensures CascadeState(g, start, now[child := now[child].(status := Cancelled, outputSummary := Some(reason))],
                         failed, doomed, cancelled + {child})
  {
  }

  lemma CancelOneTellsWhy(start: Nodes, now: Nodes, failed: string, cancelled: set<string>, child: string, parent: string)
    requires ReasonsGiven(start, now, failed, cancelled)
    requires child in now && child !in cancelled && now[child] == start[child]
    requires parent in now[child].dependencies && (parent == failed || parent in cancelled)
    ensures ReasonsGiven(start, now[child := now[child].(status := Cancelled, outputSummary := Some(CancelReason(parent)))],
                         failed, cancelled + {child})
  {
    var after := now[child := now[child].(status := Cancelled, outputSummary := Some(CancelReason(parent)))];
    assert CancelledFor(start[child], after[child], parent);
    forall x | x in cancelled
      ensures CancelledThrough(start, after, x, cancelled + {child} + {failed})
    {
      StillCancelledThrough(start, now, after, x, cancelled + {failed}, cancelled + {child} + {failed});
    }
  }

  lemma StillCancelledThrough(start: Nodes, now: Nodes, after: Nodes, x: string, parents: set<string>, more: set<string>)
    requires x in start && x in now && x in after && after[x] == now[x] && parents <= more
    requires CancelledThrough(start, now, x, parents)
    ensures CancelledThrough(start, after, x, more)
  {
    var p :| p in parents && CancelledFor(start[x], now[x], p);
    assert CancelledFor(start[x], after[x], p);
  }

  /** In the middle of a look at every task: those not in `todo` that `parent`
      hits are cancelled. */
  ghost predicate CancelRound(g: Graph, start: Nodes, now: Nodes, failed: string, doomed: set<string>, before: set<string>,
                              parent: string, more: seq<string>, cancelled: set<string>, todo: set<string>) {
    && CascadeState(g, start, now, failed, doomed, cancelled) && ReasonsGiven(start, now, failed, cancelled)
    && (forall c :: c in cancelled <==> c in before || c in more)
    && (forall c :: c in more ==> c !in before)
    && (forall c :: Hits(g, parent, c) ==> c in todo || c in cancelled)
  }

  lemma CancelRoundStep(g: Graph, start: Nodes, now: Nodes, failed: string, doomed: set<string>, before: set<string>,
                        parent: string, more: seq<string>, cancelled: set<string>, todo: set<string>, child: string)
    requires CancelRound(g, start, now, failed, doomed, before, parent, more, cancelled, todo)
    requires child in todo && child in now && (parent == failed || parent in before)
    ensures if parent in now[child].dependencies && now[child].status == Pending
            then CancelRound(g, start, now[child := now[child].(status := Cancelled, outputSummary := Some(CancelReason(parent)))],
                             failed, doomed, before, parent, more + [child], cancelled + {child}, todo - {child})
            else CancelRound(g, start, now, failed, doomed, before, parent, more, cancelled, todo - {child})
  {
    HitsAreVisible(g, start, now, failed, doomed, cancelled, parent, child);
    if parent in now[child].dependencies && now[child].status == Pending {
      CancelOne(g, start, now, failed, doomed, cancelled, child, CancelReason(parent));
      CancelOneTellsWhy(start, now, failed, cancelled, child, parent);
      OneMoreCancelled(before, more, cancelled, child);
    }
  }

  lemma OneMoreCancelled(before: set<string>, more: seq<string>, cancelled: set<string>, child: string)
    requires forall c :: c in cancelled <==> c in before || c in more
    requires (forall c :: c in more ==> c !in before) && child !in cancelled
    ensures forall c :: c in cancelled + {child} <==> c in before || c in more + [child]
    ensures forall c :: c in more + [child] ==> c !in before
  {
  }

  /** The failed and the cancelled tasks are queued or settled, and what the
      settled ones hit is cancelled. */
  ghost predicate CascadeQueue(g: Graph, failed: string, queue: seq<string>, settled: set<string>, cancelled: set<string>) {
    && (forall p :: p in queue ==> p == failed || p in cancelled)
    && (forall p :: p == failed || p in cancelled ==> p in queue || p in settled)
    && (forall p, c :: p in settled && Hits(g, p, c) ==> c in cancelled)
  }

  lemma CascadeQueueStep(g: Graph, failed: string, queue: seq<string>, settled: set<string>, before: set<string>,
                         more: seq<string>, cancelled: set<string>)
    requires queue != [] && CascadeQueue(g, failed, queue, settled, before)
    requires forall c :: c in cancelled <==> c in before || c in more
    requires forall c :: Hits(g, queue[0], c) ==> c in cancelled
    ensures CascadeQueue(g, failed, queue[1..] + more, settled + {queue[0]}, cancelled)
  {
    assert queue == [queue[0]] + queue[1..];
    assert forall p :: p in queue[1..] + more <==> p in queue[1..] || p in more;
  }

  lemma CascadeShrinks(doomed: set<string>, before: set<string>, more: seq<string>, cancelled: set<string>)
    requires forall c :: c in cancelled <==> c in before || c in more
    requires forall c :: c in more ==> c !in before
    requires cancelled <= doomed
    ensures |doomed - cancelled| <= |doomed - before|
    ensures more != [] ==> |doomed - cancelled| < |doomed - before|
  {
    SubsetCardinality(doomed - cancelled, doomed - before);
    if more != [] {
      assert more[0] in more;
      assert more[0] in doomed - before && more[0] !in doomed - cancelled;
    }
  }

  lemma CascadeComplete(g: Graph, start: Nodes, now: Nodes, failed: string, doomed: set<string>, cancelled: set<string>)
    requires CascadeState(g, start, now, failed, doomed, cancelled)
    requires doomed == DoomedTasks(g, failed)
    requires ClosedUnderHits(g, failed, cancelled)
    ensures AbstractGraph(now).deps == g.deps
    ensures AbstractGraph(now).status == Cascaded(g, failed)
  {
    SameWaits(start, now);
    forall x | x in doomed
      ensures x in cancelled
    {
      var path :| CascadePath(g, failed, path) && |path| > 1 && path[|path| - 1] == x;
      DoomedTasksAreLeast(g, failed, cancelled, path);
    }
    forall x | x in g.status
      ensures AbstractGraph(now).status[x] == Cascaded(g, failed)[x]
    {
      assert x in doomed <==> Doomed(g, failed, x);
    }
  }
}
