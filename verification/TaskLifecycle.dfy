/** What every run of a validated task graph keeps: no task waits in vain, so
    the graph can always go on until it is complete. */
module TaskLifecycle {
  import opened Common
  import opened TaskGraphs

  datatype Event =
    | Started(id: string)
    | Finished(id: string)
    | Broke(id: string)

  /** A status report, as `mark_running`, `mark_succeeded` and `mark_failed`
      apply it. A report about an unknown task changes nothing. */
  ghost function After(g: Graph, e: Event): (r: Graph)
    ensures r.deps == g.deps && r.status.Keys == g.status.Keys
  {
    if e.id !in g.status then g
    else
      match e
      case Started(id) => WithStatus(g, id, Running)
      case Finished(id) => WithStatus(g, id, Succeeded)
      case Broke(id) => FailTask(g, id)
  }

  ghost function AfterAll(g: Graph, events: seq<Event>): (r: Graph)
    ensures r.deps == g.deps && r.status.Keys == g.status.Keys
  {
    if events == [] then g else After(AfterAll(g, events[..|events| - 1]), events[|events| - 1])
  }

  ghost predicate AllPending(g: Graph) {
    forall id :: id in g.status ==> g.status[id] == Pending
  }

  /** No pending task depends on a failed or a cancelled one. */
  ghost predicate NoneWaitsInVain(g: Graph) {
    forall id, d :: id in g.status && g.status[id] == Pending && id in g.deps && d in g.deps[id] && d in g.status ==>
                      g.status[d] != Failed && g.status[d] != Cancelled
  }

  /** A failure changes its own task, cancels pending tasks downstream, and
      changes nothing else. */
  lemma FailureChangesOnlyDownstream(g: Graph, id: string, x: string)
    requires id in g.status && x in g.status
    ensures FailTask(g, id).status[x] ==
            if x == id then Failed
            else if Doomed(WithStatus(g, id, Failed), id, x) then Cancelled
            else g.status[x]
    ensures x != id && FailTask(g, id).status[x] != g.status[x] ==> g.status[x] == Pending
  {
    var marked := WithStatus(g, id, Failed);
    if Doomed(marked, id, x) {
      var path :| CascadePath(marked, id, path) && |path| > 1 && path[|path| - 1] == x;
      assert Hits(marked, path[|path| - 2], x);
    }
  }

  lemma FailureKeepsNoneWaiting(g: Graph, id: string)
    requires id in g.status && NoneWaitsInVain(g)
    ensures NoneWaitsInVain(FailTask(g, id))
  {
    var marked := WithStatus(g, id, Failed);
    var r := FailTask(g, id);
    DoomedTasksAreClosed(marked, id);
    forall x, d | x in r.status && r.status[x] == Pending && x in r.deps && d in r.deps[x] && d in r.status
      ensures r.status[d] != Failed && r.status[d] != Cancelled
    {
      FailureChangesOnlyDownstream(g, id, x);
      FailureChangesOnlyDownstream(g, id, d);
      assert Hits(marked, d, x) && x !in DoomedTasks(marked, id);
      assert d != id && d !in DoomedTasks(marked, id);
    }
  }

  /** The invariant holds in every state that reports can lead to. */
  lemma {:induction false} NoneEverWaitsInVain(g: Graph, events: seq<Event>)
    requires AllPending(g)
    ensures NoneWaitsInVain(AfterAll(g, events))
    decreases |events|
  {
    if events == [] {
    } else {
      NoneEverWaitsInVain(g, events[..|events| - 1]);
      var before := AfterAll(g, events[..|events| - 1]);
      var e := events[|events| - 1];
      if e.Broke? && e.id in before.status {
        FailureKeepsNoneWaiting(before, e.id);
      }
    }
  }

  /** In a valid graph where nothing waits in vain, work that is left and not
      running can be started. */
  lemma UnfinishedWorkCanGoOn(g: Graph)
    requires Valid(g) && NoneWaitsInVain(g) && !Complete(g)
    ensures exists id :: id in g.status && (g.status[id] == Running || Ready(g, id))
  {
    var waiting := set id | id in g.status && g.status[id] == Pending;
    var unfinished :| unfinished in g.status && !Terminal(g.status[unfinished]);
    if forall id :: id in g.status ==> g.status[id] != Running && !Ready(g, id) {
      assert unfinished in waiting;
      forall id | id in waiting
        ensures WaitsWithin(g, id, waiting)
      {
        assert !Ready(g, id);
        var d :| d in g.deps[id] && !(d in g.status && g.status[d] == Succeeded);
        assert d in waiting;
      }
      StuckSetHasCycle(g, waiting);
      assert false;
    }
  }

  /** No deadlock: from a validated graph of pending tasks, whatever reports
      arrive, unless all tasks are done some task is running or ready. */
  lemma NoDeadlock(g: Graph, events: seq<Event>)
    requires Valid(g) && AllPending(g)
    ensures var now := AfterAll(g, events);
            || (forall id :: id in now.status ==> now.status[id] in {Succeeded, TaskGraphs.Failed, Cancelled})
            || (exists id :: id in now.status && now.status[id] == Running)
            || (exists id :: id in now.status && id in now.deps && now.status[id] == Pending
                  && forall d :: d in now.deps[id] ==> d in now.status && now.status[d] == Succeeded)
  {
    NoneEverWaitsInVain(g, events);
    var now := AfterAll(g, events);
    assert Valid(now) by {
      assert forall path :: DependencyPath(g, path) <==> DependencyPath(now, path);
    }
    if !Complete(now) {
      UnfinishedWorkCanGoOn(now);
    }
  }

  // ----- Running only what may run -----

  /** Every running task's dependencies have succeeded. */
  ghost predicate RunningIsBacked(g: Graph) {
    forall id, d :: id in g.status && g.status[id] == Running && id in g.deps && d in g.deps[id] ==>
                      d in g.status && g.status[d] == Succeeded
  }

  /** A running task other than this one depends on it. */
  ghost predicate Backs(g: Graph, id: string) {
    exists x :: x != id && x in g.status && g.status[x] == Running && x in g.deps && id in g.deps[x]
  }

  /** Where every running task is backed, a report keeps it so exactly when a
      started task's own dependencies have succeeded, and a task that is started
      or failed backs no running one. */
  lemma ReportKeepsBackingExactlyWhen(g: Graph, e: Event)
    requires WellFormed(g) && RunningIsBacked(g) && e.id in g.status
    ensures RunningIsBacked(After(g, e)) <==>
            match e
            case Started(id) => !Backs(g, id) && forall d :: d in g.deps[id] ==> d != id && d in g.status && g.status[d] == Succeeded
            case Finished(_) => true
            case Broke(id) => !Backs(g, id)
  {
    var after := After(g, e);
    match e {
      case Started(id) => StartKeepsBackingExactlyWhen(g, id);
      case Finished(id) =>
      case Broke(id) => FailureKeepsBackingExactlyWhen(g, id);
    }
  }

  lemma StartKeepsBackingExactlyWhen(g: Graph, id: string)
    requires WellFormed(g) && RunningIsBacked(g) && id in g.status
    ensures RunningIsBacked(WithStatus(g, id, Running)) <==>
            !Backs(g, id) && forall d :: d in g.deps[id] ==> d != id && d in g.status && g.status[d] == Succeeded
  {
    var after := WithStatus(g, id, Running);
    if x :| x != id && x in g.status && g.status[x] == Running && x in g.deps && id in g.deps[x] {
      assert after.status[x] == Running && after.status[id] == Running;
    }
    if d :| d in g.deps[id] && !(d != id && d in g.status && g.status[d] == Succeeded) {
      assert after.status[id] == Running && !(d in after.status && after.status[d] == Succeeded);
    }
  }

  lemma FailureKeepsBackingExactlyWhen(g: Graph, id: string)
    requires WellFormed(g) && RunningIsBacked(g) && id in g.status
    ensures RunningIsBacked(FailTask(g, id)) <==> !Backs(g, id)
  {
    var after := FailTask(g, id);
    forall x | x in g.status
      ensures after.status[x] == Running <==> x != id && g.status[x] == Running
      ensures after.status[x] == Succeeded <==> x != id && g.status[x] == Succeeded
    {
      FailureChangesOnlyDownstream(g, id, x);
    }
    if x :| x != id && x in g.status && g.status[x] == Running && x in g.deps && id in g.deps[x] {
      assert after.status[x] == Running && after.status[id] != Succeeded;
    }
  }

  /** A run that starts only tasks that are ready, and fails none that has
      succeeded. */
  ghost predicate Orderly(g: Graph, events: seq<Event>) {
    forall n :: 0 <= n < |events| && events[n].id in g.status ==>
      var before := AfterAll(g, events[..n]);
      && (events[n].Started? ==> Ready(before, events[n].id))
      && (events[n].Broke? ==> before.status[events[n].id] != Succeeded)
  }

  /** In such a run no task runs before everything it depends on has succeeded. */
  lemma {:induction false} RunningTasksAreBacked(g: Graph, events: seq<Event>)
    requires WellFormed(g) && AllPending(g) && Orderly(g, events)
    ensures RunningIsBacked(AfterAll(g, events))
    decreases |events|
  {
    if events == [] {
    } else {
      var n := |events| - 1;
      var front, e := events[..n], events[n];
      forall m | 0 <= m < |front| && front[m].id in g.status
        ensures var before := AfterAll(g, front[..m]);
                && (front[m].Started? ==> Ready(before, front[m].id))
                && (front[m].Broke? ==> before.status[front[m].id] != Succeeded)
      {
        assert front[..m] == events[..m] && front[m] == events[m];
      }
      RunningTasksAreBacked(g, front);
      var before := AfterAll(g, front);
      if e.id in before.status {
        ReportKeepsBackingExactlyWhen(before, e);
      }
    }
  }

  /** The three reports, as methods of the graph object, are the steps above. */
  method Report(graph: TaskGraph, e: Event, detail: string) returns (r: Result<(), GraphError>)
    modifies graph
    ensures graph.View() == After(old(graph.View()), e)
    ensures r.Ok? <==> e.id in old(graph.nodes)
  {
    match e {
      case Started(id) => r := graph.MarkRunning(id, detail);
      case Finished(id) => r := graph.MarkSucceeded(id, detail);
      case Broke(id) => r := graph.MarkFailed(id, detail);
    }
  }
}
