/** The serialized merge queue (crates/git-broker/src/merge_queue.rs). */
module MergeQueues {
  import opened Common
  import opened FileTree
  import opened GitBroker
  import opened MergeSafety

  /** A queued merge. `workspace` is what the agent workspace holds; it is a
      directory unless the workspace is gone. */
  datatype Item = Item(queueId: string, taskId: string, workspace: Node, changes: seq<FileChange>)

  datatype QueueResult =
    | Merged(appliedFiles: seq<string>)
    | Conflict(conflicts: seq<MergeConflict>)
    | Error(error: BrokerError)

  datatype Processed = Processed(root: Node, result: QueueResult)

  /** Processing one item against the primary tree. */
  function ProcessOf(primary: Node, item: Item, sha: Sha): (p: Processed)
    requires primary.Dir?
    ensures p.root.Dir?
  {
    match Conflicts(primary, item.changes, sha)
    case Err(e) => Processed(primary, Error(e))
    case Ok(conflicts) =>
      if conflicts != [] then Processed(primary, Conflict(conflicts))
      else if !item.workspace.Dir? then Processed(primary, Error(NoWorkspace))
      else
        var m := WriteChangesOf(primary, item.workspace, item.changes, sha);
        match m.report
        case Err(e) => Processed(m.root, Error(e))
        case Ok(applied) => Processed(m.root, Merged(applied))
  }

  /** Why one result is the right one: every path leads somewhere in the tree,
      every target holds what its change expects, and the workspace holds what
      the changes name, with none of them in another's way, exactly when the
      item merges whole. Targets that do not are conflicts, and anything else
      is an error. */
  ghost predicate Outcome(before: Node, item: Item, after: Node, result: QueueResult, sha: Sha)
    requires before.Dir?
  {
    var changes := item.changes;
    match result
    case Merged(paths) =>
      && CanMerge(before, item, sha)
      && paths == Paths(changes) && FullyMerged(before, after, item.workspace, changes)
    case Conflict(conflicts) =>
      && Resolved(changes) && conflicts != [] && after == before
      && exists at :: ReportsUnwritable(before, changes, conflicts, at, sha)
    case Error(error) =>
      && !CanMerge(before, item, sha)
      && (Resolved(changes) ==> AllWritable(before, changes, sha))
      && (!error.Stopped? ==> after == before)
      && (error.BadPath? <==> !Resolved(changes))
      && (error.NoWorkspace? <==> Resolved(changes) && !item.workspace.Dir?)
      && (error.Stale? || error.GoneFromAgent? <==>
            Resolved(changes) && item.workspace.Dir? && !Holds(item.workspace, changes, sha))
      && (error.Stopped? <==>
            Resolved(changes) && item.workspace.Dir? && Holds(item.workspace, changes, sha) && !Compatible(changes))
  }

  ghost predicate AllWritable(root: Node, changes: seq<FileChange>, sha: Sha)
    requires root.Dir? && Resolved(changes)
  {
    forall i :: 0 <= i < |changes| ==> Writable(root, Target(changes[i]), changes[i].preimage, sha)
  }

  ghost predicate CanMerge(primary: Node, item: Item, sha: Sha)
    requires primary.Dir?
  {
    && Compatible(item.changes) && AllWritable(primary, item.changes, sha)
    && item.workspace.Dir? && Holds(item.workspace, item.changes, sha)
  }

  /** The trees the primary goes through while a queue is drained. */
  ghost predicate OutcomesAlong(trees: seq<Node>, before: Node, items: seq<Item>, after: Node,
                                results: seq<(string, QueueResult)>, sha: Sha) {
    && |trees| == |items| + 1 && |results| == |items|
    && trees[0] == before && trees[|items|] == after
    && forall i :: 0 <= i < |items| ==>
         && trees[i].Dir? && results[i].0 == items[i].taskId
         && Outcome(trees[i], items[i], trees[i + 1], results[i].1, sha)
  }

  datatype Drained = Drained(root: Node, results: seq<QueueResult>)

  /** Processing items one after another. */
  function DrainOf(primary: Node, items: seq<Item>, sha: Sha): (d: Drained)
    requires primary.Dir?
    ensures d.root.Dir? && |d.results| == |items|
    decreases |items|
  {
    if items == [] then Drained(primary, [])
    else
      var first := ProcessOf(primary, items[0], sha);
      var rest := DrainOf(first.root, items[1..], sha);
      Drained(rest.root, [first.result] + rest.results)
  }

  function HistoryItems(history: seq<(Item, QueueResult)>): seq<Item> {
    seq(|history|, i requires 0 <= i < |history| => history[i].0)
  }

  function Paired(items: seq<Item>, results: seq<QueueResult>): seq<(Item, QueueResult)>
    requires |items| == |results|
  {
    seq(|items|, i requires 0 <= i < |items| => (items[i], results[i]))
  }

  function Reported(items: seq<Item>, results: seq<QueueResult>): seq<(string, QueueResult)>
    requires |items| == |results|
  {
    seq(|items|, i requires 0 <= i < |items| => (items[i].taskId, results[i]))
  }

  class MergeQueue {
    const primary: Tree
    const sha: Sha
    var pending: seq<Item>
    var history: seq<(Item, QueueResult)>

    ghost predicate Valid()
      reads this, primary
    {
      primary.root.Dir?
    }

    /** Every item ever enqueued, oldest first: those processed, then those waiting. */
    function EnqueueOrder(): seq<Item>
      reads this
    {
      HistoryItems(history) + pending
    }

    constructor (primary: Tree, sha: Sha)
      requires primary.root.Dir?
      ensures Valid() && this.primary == primary && this.sha == sha
      ensures pending == [] && history == []
    {
      this.primary := primary;
      this.sha := sha;
      pending := [];
      history := [];
    }

    method Enqueue(item: Item)
      requires Valid()
      modifies this
      ensures Valid() && history == old(history) && pending == old(pending) + [item]
      ensures EnqueueOrder() == old(EnqueueOrder()) + [item]
    {
      pending := pending + [item];
      assert EnqueueOrder() == old(EnqueueOrder()) + [item];
    }

    method ProcessNext() returns (r: Option<(string, QueueResult)>)
      requires Valid()
      modifies this, primary
      ensures Valid()
      ensures EnqueueOrder() == old(EnqueueOrder())
      ensures old(pending) != [] && NeverNull(sha) ==>
                r.Some? && Outcome(old(primary.root), old(pending)[0], primary.root, r.value.1, sha)
      ensures if old(pending) == [] then
                r == None && pending == [] && history == old(history) && primary.root == old(primary.root)
              else
                var item := old(pending)[0];
                var processed := ProcessOf(old(primary.root), item, sha);
                && r == Some((item.taskId, processed.result))
                && pending == old(pending)[1..]
                && history == old(history) + [(item, processed.result)]
                && primary.root == processed.root
    {
      if pending == [] {
        return None;
      }
      var item := pending[0];
      pending := pending[1..];
      var result: QueueResult;
      var conflicts := ValidatePreimages(primary, item.changes, sha);
      if conflicts.Err? {
        result := Error(conflicts.error);
      } else if conflicts.value != [] {
        result := Conflict(conflicts.value);
      } else if !item.workspace.Dir? {
        result := Error(NoWorkspace);
      } else {
        var agent := new Tree(item.workspace);
        var applied := WriteChanges(primary, agent, item.changes, sha);
        match applied {
          case Ok(paths) => result := Merged(paths);
          case Err(e) => result := Error(e);
        }
      }
      history := history + [(item, result)];
      assert EnqueueOrder() == old(EnqueueOrder());
      ProcessedAsItMust(old(primary.root), item, sha);
      return Some((item.taskId, result));
    }

    /** Drains the queue. */
    method ProcessAll() returns (results: seq<(string, QueueResult)>)
      requires Valid()
      modifies this, primary
      ensures Valid() && pending == []
      ensures var drained := DrainOf(old(primary.root), old(pending), sha);
              && primary.root == drained.root
              && history == old(history) + Paired(old(pending), drained.results)
              && results == Reported(old(pending), drained.results)
      ensures EnqueueOrder() == old(EnqueueOrder())
      ensures NeverNull(sha) ==> exists trees :: OutcomesAlong(trees, old(primary.root), old(pending), primary.root, results, sha)
    {
      results := [];
      ghost var done: seq<QueueResult> := [];
      ghost var count := 0;
      while |pending| > 0
        invariant Valid()
        invariant count == |done| <= |old(pending)| && pending == old(pending)[count..]
        invariant DrainOf(old(primary.root), old(pending), sha) ==
                  Drained(DrainOf(primary.root, pending, sha).root, done + DrainOf(primary.root, pending, sha).results)
        invariant history == old(history) + Paired(old(pending)[..count], done)
        invariant results == Reported(old(pending)[..count], done)
        invariant EnqueueOrder() == old(EnqueueOrder())
        decreases |pending|
      {
        DrainStep(primary.root, pending, sha);
        ghost var result := ProcessOf(primary.root, pending[0], sha).result;
        var r := ProcessNext();
        DoneGrows(old(pending), done, result);
        DrainMoves(done, result, DrainOf(primary.root, pending, sha).results);
        results := results + [r.value];
        done := done + [result];
        count := count + 1;
      }
      assert old(pending)[..count] == old(pending);
      assert done + [] == done;
      if NeverNull(sha) {
        ghost var trees := DrainedAsItMust(old(primary.root), old(pending), sha);
      }
    }
  }

  lemma DrainStep(root: Node, items: seq<Item>, sha: Sha)
    requires root.Dir? && items != []
    ensures var first := ProcessOf(root, items[0], sha);
            && DrainOf(root, items, sha).root == DrainOf(first.root, items[1..], sha).root
            && DrainOf(root, items, sha).results == [first.result] + DrainOf(first.root, items[1..], sha).results
  {
  }

  lemma DoneGrows(items: seq<Item>, done: seq<QueueResult>, result: QueueResult)
    requires |done| < |items|
    ensures var n := |done|;
            && items[n..][1..] == items[n + 1..]
            && Paired(items[..n + 1], done + [result]) == Paired(items[..n], done) + [(items[n], result)]
            && Reported(items[..n + 1], done + [result]) == Reported(items[..n], done) + [(items[n].taskId, result)]
  {
  }

  lemma DrainMoves(done: seq<QueueResult>, result: QueueResult, rest: seq<QueueResult>)
    ensures done + ([result] + rest) == (done + [result]) + rest
  {
  }

  // ----- When an item merges -----

  lemma ProcessedAsItMust(primary: Node, item: Item, sha: Sha)
    requires primary.Dir?
    ensures NeverNull(sha) ==> Outcome(primary, item, ProcessOf(primary, item, sha).root, ProcessOf(primary, item, sha).result, sha)
  {
    if NeverNull(sha) {
      ValidationFailsExactlyWhen(primary, item.changes, sha);
      if Resolved(item.changes) {
        var at := ConflictsAreTheUnwritable(primary, item.changes, sha);
        NoneUnwritable(primary, item.changes, Conflicts(primary, item.changes, sha).value, at, sha);
        if Conflicts(primary, item.changes, sha).value == [] && item.workspace.Dir? {
          WrittenAsItMust(primary, item, sha);
        }
      }
    }
  }

  lemma NoneUnwritable(primary: Node, changes: seq<FileChange>, conflicts: seq<MergeConflict>, at: seq<nat>, sha: Sha)
    requires primary.Dir? && Resolved(changes) && ReportsUnwritable(primary, changes, conflicts, at, sha)
    ensures conflicts == [] <==> AllWritable(primary, changes, sha)
  {
    if conflicts != [] {
      assert at[0] in at;
    }
    if i: nat :| i < |changes| && !Writable(primary, Target(changes[i]), changes[i].preimage, sha) {
      assert i in at;
    }
  }

  lemma WrittenAsItMust(primary: Node, item: Item, sha: Sha)
    requires primary.Dir? && item.workspace.Dir? && NeverNull(sha) && Resolved(item.changes)
    requires Conflicts(primary, item.changes, sha) == Ok([]) && AllWritable(primary, item.changes, sha)
    ensures Outcome(primary, item, ProcessOf(primary, item, sha).root, ProcessOf(primary, item, sha).result, sha)
  {
    SourcesAreReadExactlyWhen(item.workspace, item.changes, sha);
    if Holds(item.workspace, item.changes, sha) {
      MergeCompletesExactlyWhen(primary, item.workspace, item.changes, sha);
      if Compatible(item.changes) {
        MergeIsAllOrNothing(primary, item.workspace, item.changes, sha);
      } else {
        StopNamesWhatWasWritten(primary, item.changes, Sources(item.workspace, item.changes, sha).value, [], sha);
      }
    }
  }

  lemma {:induction false} DrainedAsItMust(primary: Node, items: seq<Item>, sha: Sha) returns (trees: seq<Node>)
    requires primary.Dir? && NeverNull(sha)
    ensures var d := DrainOf(primary, items, sha);
            OutcomesAlong(trees, primary, items, d.root, Reported(items, d.results), sha)
    decreases |items|
  {
    if items == [] {
      trees := [primary];
    } else {
      var first := ProcessOf(primary, items[0], sha);
      var rest := DrainedAsItMust(first.root, items[1..], sha);
      trees := [primary] + rest;
      OneMoreDrained(primary, items, rest, sha);
    }
  }

  lemma OneMoreDrained(primary: Node, items: seq<Item>, rest: seq<Node>, sha: Sha)
    requires primary.Dir? && NeverNull(sha) && items != []
    requires var first := ProcessOf(primary, items[0], sha);
             var later := DrainOf(first.root, items[1..], sha);
             OutcomesAlong(rest, first.root, items[1..], later.root, Reported(items[1..], later.results), sha)
    ensures var d := DrainOf(primary, items, sha);
            OutcomesAlong([primary] + rest, primary, items, d.root, Reported(items, d.results), sha)
  {
    var first := ProcessOf(primary, items[0], sha);
    var d, later := DrainOf(primary, items, sha), DrainOf(first.root, items[1..], sha);
    ProcessedAsItMust(primary, items[0], sha);
    DrainStep(primary, items, sha);
    ReportedFirst(items, first.result, later.results);
    OutcomesPrepend(primary, first, items, rest, d.root, Reported(items[1..], later.results), sha);
  }

  lemma ReportedFirst(items: seq<Item>, first: QueueResult, later: seq<QueueResult>)
    requires items != [] && |later| + 1 == |items|
    ensures Reported(items, [first] + later) == [(items[0].taskId, first)] + Reported(items[1..], later)
  {
  }

  lemma OutcomesPrepend(before: Node, first: Processed, items: seq<Item>, trees: seq<Node>, after: Node,
                        results: seq<(string, QueueResult)>, sha: Sha)
    requires before.Dir? && items != [] && Outcome(before, items[0], first.root, first.result, sha)
    requires OutcomesAlong(trees, first.root, items[1..], after, results, sha)
    ensures OutcomesAlong([before] + trees, before, items, after, [(items[0].taskId, first.result)] + results, sha)
  {
    var all, told := [before] + trees, [(items[0].taskId, first.result)] + results;
    forall i | 0 <= i < |items|
      ensures all[i].Dir? && told[i].0 == items[i].taskId && Outcome(all[i], items[i], all[i + 1], told[i].1, sha)
    {
      if i > 0 {
        assert items[i] == items[1..][i - 1] && all[i] == trees[i - 1] && all[i + 1] == trees[i] && told[i] == results[i - 1];
      }
    }
  }

  // ----- What draining means -----

  ghost predicate AllCompatible(items: seq<Item>) {
    forall i :: 0 <= i < |items| ==> Compatible(items[i].changes)
  }

  /** Processing an item either merges its whole changeset or leaves the
      primary tree exactly as it was. */
  lemma ProcessingIsAllOrNothing(primary: Node, item: Item, sha: Sha)
    requires primary.Dir? && NeverNull(sha) && Compatible(item.changes)
    ensures var p := ProcessOf(primary, item, sha);
            if p.result.Merged?
            then item.workspace.Dir? && p.result.appliedFiles == Paths(item.changes) &&
                 FullyMerged(primary, p.root, item.workspace, item.changes)
            else p.root == primary
  {
    if item.workspace.Dir? {
      MergeIsAllOrNothing(primary, item.workspace, item.changes, sha);
    }
  }

  /** The items that merged, in order. */
  function MergedItems(items: seq<Item>, results: seq<QueueResult>): seq<Item>
    requires |results| == |items|
  {
    if items == [] then []
    else (if results[0].Merged? then [items[0]] else []) + MergedItems(items[1..], results[1..])
  }

  /** The items that conflicted or failed might as well never have been queued:
      draining only the merged ones merges all of them and ends in the same tree. */
  lemma {:induction false} OnlyMergedItemsMatter(primary: Node, items: seq<Item>, sha: Sha)
    requires primary.Dir? && NeverNull(sha) && AllCompatible(items)
    ensures var merged := MergedItems(items, DrainOf(primary, items, sha).results);
            && DrainOf(primary, merged, sha).root == DrainOf(primary, items, sha).root
            && forall i :: 0 <= i < |merged| ==> DrainOf(primary, merged, sha).results[i].Merged?
    decreases |items|
  {
    if items == [] {
    } else {
      var first := ProcessOf(primary, items[0], sha);
      var rest := DrainOf(first.root, items[1..], sha);
      ProcessingIsAllOrNothing(primary, items[0], sha);
      OnlyMergedItemsMatter(first.root, items[1..], sha);
      var later := MergedItems(items[1..], rest.results);
      assert DrainOf(primary, items, sha).results[1..] == rest.results;
      if first.result.Merged? {
        var merged := [items[0]] + later;
        assert merged[1..] == later;
      } else {
        assert [] + later == later;
      }
    }
  }

  /** What a file of the primary becomes: the last merged item that changes it
      decides, and a file no merged item changes keeps what it held. */
  function FinalLeaf(items: seq<Item>, results: seq<QueueResult>, names: Names, held: Option<Node>): Option<Node>
    requires |results| == |items|
  {
    if items == [] then held
    else
      var now := if results[0].Merged? && ChangesFile(items[0].changes, names)
                 then NodeAt(items[0].workspace, names)
                 else held;
      FinalLeaf(items[1..], results[1..], names, now)
  }

  predicate ChangesFile(changes: seq<FileChange>, names: Names) {
    exists i :: 0 <= i < |changes| && NamesOf(changes[i].path) == Some(names)
  }

  /** Draining is serial, file by file. */
  lemma {:induction false} DrainIsSerial(primary: Node, items: seq<Item>, sha: Sha, names: Names)
    requires primary.Dir? && NeverNull(sha) && AllCompatible(items)
    ensures LeafAt(DrainOf(primary, items, sha).root, names) ==
            FinalLeaf(items, DrainOf(primary, items, sha).results, names, LeafAt(primary, names))
    decreases |items|
  {
    if items == [] {
    } else {
      var first := ProcessOf(primary, items[0], sha);
      DrainIsSerial(first.root, items[1..], sha, names);
      DrainStep(primary, items, sha);
      assert DrainOf(primary, items, sha).results[1..] == DrainOf(first.root, items[1..], sha).results;
      ProcessedLeaf(primary, items[0], sha, names);
    }
  }

  /** What a file of the primary becomes when one item is processed. */
  lemma ProcessedLeaf(primary: Node, item: Item, sha: Sha, names: Names)
    requires primary.Dir? && NeverNull(sha) && Compatible(item.changes)
    ensures var p := ProcessOf(primary, item, sha);
            LeafAt(p.root, names) == if p.result.Merged? && ChangesFile(item.changes, names)
                                     then NodeAt(item.workspace, names) else LeafAt(primary, names)
  {
    ProcessingIsAllOrNothing(primary, item, sha);
    var p := ProcessOf(primary, item, sha);
    if p.result.Merged? {
      if i :| 0 <= i < |item.changes| && NamesOf(item.changes[i].path) == Some(names) {
        EntryIsFile(item.workspace, names);
        assert NodeAt(p.root, names) == NodeAt(item.workspace, names);
      } else {
        assert !Targets(item.changes, names);
      }
    }
  }
}
