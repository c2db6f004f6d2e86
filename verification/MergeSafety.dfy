/** Why validating every change before the first write makes a merge all or
    nothing, and what a merge of an inspected workspace achieves. */
module MergeSafety {
  import opened Common
  import opened FileTree
  import opened GitBroker
  import opened ChangesetPaths

  // ----- Changesets as lists of walked paths -----

  ghost predicate Resolved(changes: seq<FileChange>) {
    forall i :: 0 <= i < |changes| ==> NamesOf(changes[i].path).Some?
  }

  /** The names the change at `i` walks. */
  function Target(change: FileChange): (names: Names)
    requires NamesOf(change.path).Some?
    ensures names != []
  {
    NamesOf(change.path).value
  }

  /** No two changes name the same path, or one path below the other. */
  ghost predicate Independent(changes: seq<FileChange>) {
    && Resolved(changes)
    && forall i, j :: 0 <= i < j < |changes| ==> Unrelated(Target(changes[i]), Target(changes[j]))
  }

  /** Independent, but for repeated changes that leave a file as it was. */
  ghost predicate Compatible(changes: seq<FileChange>) {
    && Resolved(changes)
    && forall i, j :: 0 <= i < j < |changes| ==>
         || Unrelated(Target(changes[i]), Target(changes[j]))
         || (Target(changes[i]) == Target(changes[j]) && changes[i].preimage == changes[i].postimage)
  }

  /** Every change could be the next one written. */
  ghost predicate Ready(root: Node, changes: seq<FileChange>, sha: Sha)
    requires root.Dir?
  {
    && Resolved(changes)
    && forall i :: 0 <= i < |changes| ==> Writable(root, Target(changes[i]), changes[i].preimage, sha)
  }

  /** Each change is attested by its source, and equal targets agree. */
  ghost predicate Attested(changes: seq<FileChange>, sources: seq<Bytes>, sha: Sha) {
    && Resolved(changes)
    && |sources| == |changes|
    && (forall i :: 0 <= i < |changes| ==> sha(sources[i]) == changes[i].postimage)
    && (forall i, j :: 0 <= i < j < |changes| && Target(changes[i]) == Target(changes[j]) ==>
          changes[i].preimage == changes[j].preimage && sources[i] == sources[j])
  }

  function Paths(changes: seq<FileChange>): seq<string> {
    seq(|changes|, i requires 0 <= i < |changes| => changes[i].path)
  }

  ghost predicate Targets(changes: seq<FileChange>, names: Names)
    requires Resolved(changes)
  {
    exists i :: 0 <= i < |changes| && Target(changes[i]) == names
  }

  // ----- Validation -----

  lemma {:induction false} ValidationIsReadiness(root: Node, changes: seq<FileChange>, sha: Sha)
    requires root.Dir? && NeverNull(sha)
    ensures Conflicts(root, changes, sha) == Ok([]) <==> Ready(root, changes, sha)
    decreases |changes|
  {
    if changes == [] {
    } else {
      var front := changes[..|changes| - 1];
      ValidationIsReadiness(root, front, sha);
      assert changes == front + [changes[|changes| - 1]];
      assert Ready(root, changes, sha) ==> Ready(root, front, sha);
      if Ready(root, front, sha) {
        var last := changes[|changes| - 1];
        assert Ready(root, changes, sha) <==>
               NamesOf(last.path).Some? && Writable(root, Target(last), last.preimage, sha);
      }
    }
  }

  /** What stands in for a hash in a conflict: none where nothing is or the way
      is blocked, and an empty text where what is there is refused. */
  function HeldHash(root: Node, names: Names, sha: Sha): string
    requires names != [] && root.Dir?
  {
    match EntryAt(root, names)
    case Regular(bytes) => sha(bytes)
    case Refused => ""
    case _ => NULL_HASH
  }

  /** `at` numbers, in order, the changes that cannot be written, and the
      conflicts name each of them and what is there instead. */
  ghost predicate ReportsUnwritable(root: Node, changes: seq<FileChange>, conflicts: seq<MergeConflict>, at: seq<nat>, sha: Sha)
    requires root.Dir? && Resolved(changes)
  {
    && |at| == |conflicts| && Ascending(at)
    && (forall i: nat :: i in at <==> i < |changes| && !Writable(root, Target(changes[i]), changes[i].preimage, sha))
    && forall j :: 0 <= j < |at| ==>
         at[j] < |changes| &&
         conflicts[j] == MergeConflict(changes[at[j]].path, changes[at[j]].preimage, HeldHash(root, Target(changes[at[j]]), sha))
  }

  lemma OneConflict(root: Node, change: FileChange, sha: Sha)
    requires root.Dir? && NeverNull(sha)
    ensures NamesOf(change.path).None? ==> ConflictOf(root, change, sha) == Err(BadPath(change.path))
    ensures NamesOf(change.path).Some? ==>
              ConflictOf(root, change, sha) ==
              if Writable(root, Target(change), change.preimage, sha) then Ok(None)
              else Ok(Some(MergeConflict(change.path, change.preimage, HeldHash(root, Target(change), sha))))
  {
  }

  lemma ConflictsGrow(root: Node, front: seq<FileChange>, last: FileChange, sha: Sha)
    requires root.Dir? && Conflicts(root, front, sha).Ok?
    ensures Conflicts(root, front + [last], sha) ==
            match ConflictOf(root, last, sha)
            case Err(e) => Err(e)
            case Ok(None) => Conflicts(root, front, sha)
            case Ok(Some(conflict)) => Ok(Conflicts(root, front, sha).value + [conflict])
  {
    assert (front + [last])[..|front|] == front;
  }

  lemma ReportSkips(root: Node, front: seq<FileChange>, last: FileChange, conflicts: seq<MergeConflict>, at: seq<nat>, sha: Sha)
    requires root.Dir? && Resolved(front + [last]) && Resolved(front) && NamesOf(last.path).Some?
    requires ReportsUnwritable(root, front, conflicts, at, sha) && Writable(root, Target(last), last.preimage, sha)
    ensures ReportsUnwritable(root, front + [last], conflicts, at, sha)
  {
    var changes := front + [last];
    assert forall i :: 0 <= i < |front| ==> changes[i] == front[i];
    forall i: nat
      ensures i in at <==> i < |changes| && !Writable(root, Target(changes[i]), changes[i].preimage, sha)
    {
    }
  }

  lemma ReportGrows(root: Node, front: seq<FileChange>, last: FileChange, conflicts: seq<MergeConflict>, at: seq<nat>, sha: Sha)
    requires root.Dir? && Resolved(front + [last]) && Resolved(front) && NamesOf(last.path).Some?
    requires ReportsUnwritable(root, front, conflicts, at, sha) && !Writable(root, Target(last), last.preimage, sha)
    ensures var conflict := MergeConflict(last.path, last.preimage, HeldHash(root, Target(last), sha));
            ReportsUnwritable(root, front + [last], conflicts + [conflict], at + [|front|], sha)
  {
    var changes, more := front + [last], at + [|front|];
    assert forall i :: 0 <= i < |front| ==> changes[i] == front[i];
    assert at != [] ==> at[|at| - 1] in at;
    AscendingGrows(at, |front|);
    forall i: nat
      ensures i in more <==> i < |changes| && !Writable(root, Target(changes[i]), changes[i].preimage, sha)
    {
      assert i in more <==> i in at || i == |front|;
    }
  }

  /** Validation reports exactly the changes that cannot be written, in order,
      each with what is there instead. */
  lemma {:induction false} ConflictsAreTheUnwritable(root: Node, changes: seq<FileChange>, sha: Sha) returns (at: seq<nat>)
    requires root.Dir? && NeverNull(sha) && Resolved(changes)
    ensures Conflicts(root, changes, sha).Ok? && ReportsUnwritable(root, changes, Conflicts(root, changes, sha).value, at, sha)
    decreases |changes|
  {
    if changes == [] {
      at := [];
    } else {
      var front, last := changes[..|changes| - 1], changes[|changes| - 1];
      assert NamesOf(last.path).Some? && Resolved(front);
      at := ConflictsAreTheUnwritable(root, front, sha);
      SplitLast(changes);
      at := OneMoreReported(root, front, last, at, sha);
    }
  }

  lemma OneMoreReported(root: Node, front: seq<FileChange>, last: FileChange, at: seq<nat>, sha: Sha) returns (more: seq<nat>)
    requires root.Dir? && NeverNull(sha) && Resolved(front + [last]) && Resolved(front) && Conflicts(root, front, sha).Ok?
    requires ReportsUnwritable(root, front, Conflicts(root, front, sha).value, at, sha)
    ensures Conflicts(root, front + [last], sha).Ok?
    ensures ReportsUnwritable(root, front + [last], Conflicts(root, front + [last], sha).value, more, sha)
  {
    assert (front + [last])[|front|] == last;
    OneConflict(root, last, sha);
    ConflictsGrow(root, front, last, sha);
    if Writable(root, Target(last), last.preimage, sha) {
      more := at;
      ReportSkips(root, front, last, Conflicts(root, front, sha).value, at, sha);
    } else {
      more := at + [|front|];
      ReportGrows(root, front, last, Conflicts(root, front, sha).value, at, sha);
    }
  }

  /** It fails only over a path that leads nowhere in a tree, and names the first
      of those. */
  lemma {:induction false} ValidationFailsExactlyWhen(root: Node, changes: seq<FileChange>, sha: Sha)
    requires root.Dir?
    ensures Conflicts(root, changes, sha).Err? <==> !Resolved(changes)
    ensures Conflicts(root, changes, sha).Err? ==>
              exists i: nat :: IsFirstBadPath(changes, i) && Conflicts(root, changes, sha) == Err(BadPath(changes[i].path))
    decreases |changes|
  {
    if changes == [] {
    } else {
      var front, last := changes[..|changes| - 1], changes[|changes| - 1];
      ValidationFailsExactlyWhen(root, front, sha);
      SplitLast(changes);
      assert Resolved(changes) <==> Resolved(front) && NamesOf(last.path).Some?;
      if Conflicts(root, front, sha).Ok? {
        ConflictsGrow(root, front, last, sha);
        if NamesOf(last.path).None? {
          assert IsFirstBadPath(changes, |front|);
        }
      } else {
        var i: nat :| IsFirstBadPath(front, i) && Conflicts(root, front, sha) == Err(BadPath(front[i].path));
        assert front[..i] == changes[..i];
        assert IsFirstBadPath(changes, i);
      }
    }
  }

  ghost predicate IsFirstBadPath(changes: seq<FileChange>, i: nat) {
    i < |changes| && Resolved(changes[..i]) && NamesOf(changes[i].path).None?
  }

  // ----- Sources -----

  /** The agent's tree holds each change's content. */
  ghost predicate Holds(agent: Node, changes: seq<FileChange>, sha: Sha)
    requires agent.Dir? && Resolved(changes)
  {
    forall i :: 0 <= i < |changes| ==> HoldsOne(agent, changes[i], sha)
  }

  predicate HoldsOne(agent: Node, change: FileChange, sha: Sha)
    requires agent.Dir? && NamesOf(change.path).Some?
  {
    EntryAt(agent, Target(change)).Regular? && sha(EntryAt(agent, Target(change)).bytes) == change.postimage
  }

  /** The first change whose content the agent's tree does not hold. */
  ghost predicate IsFirstMissing(agent: Node, changes: seq<FileChange>, i: nat, sha: Sha)
    requires agent.Dir? && Resolved(changes)
  {
    i < |changes| && !HoldsOne(agent, changes[i], sha) && forall j :: 0 <= j < i ==> HoldsOne(agent, changes[j], sha)
  }

  /** Reading the sources succeeds exactly when the agent's tree holds them all,
      and otherwise the first missing one is named: as stale when a file is
      there, and else as gone. */
  lemma {:induction false} SourcesAreReadExactlyWhen(agent: Node, changes: seq<FileChange>, sha: Sha)
    requires agent.Dir? && Resolved(changes)
    ensures Sources(agent, changes, sha).Ok? <==> Holds(agent, changes, sha)
    ensures Sources(agent, changes, sha).Err? ==>
              exists i: nat :: IsFirstMissing(agent, changes, i, sha)
                && Sources(agent, changes, sha).error ==
                   if EntryAt(agent, Target(changes[i])).Regular? then Stale(changes[i].path) else GoneFromAgent(changes[i].path)
    decreases |changes|
  {
    if changes == [] {
    } else {
      var front, last := changes[..|changes| - 1], changes[|changes| - 1];
      SplitLast(changes);
      SourcesAreReadExactlyWhen(agent, front, sha);
      HoldsOneMore(agent, changes, front, last, sha);
      if Sources(agent, front, sha).Err? {
        var i: nat :| IsFirstMissing(agent, front, i, sha)
          && Sources(agent, front, sha).error ==
             if EntryAt(agent, Target(front[i])).Regular? then Stale(front[i].path) else GoneFromAgent(front[i].path);
        assert IsFirstMissing(agent, changes, i, sha);
      } else if !HoldsOne(agent, last, sha) {
        assert IsFirstMissing(agent, changes, |front|, sha);
      }
    }
  }

  lemma HoldsOneMore(agent: Node, changes: seq<FileChange>, front: seq<FileChange>, last: FileChange, sha: Sha)
    requires agent.Dir? && Resolved(changes) && Resolved(front) && NamesOf(last.path).Some? && changes == front + [last]
    ensures Holds(agent, changes, sha) <==> Holds(agent, front, sha) && HoldsOne(agent, last, sha)
  {
    assert changes[|front|] == last;
    if Holds(agent, changes, sha) {
      assert HoldsOne(agent, changes[|front|], sha);
      forall i | 0 <= i < |front|
        ensures HoldsOne(agent, front[i], sha)
      {
        assert changes[i] == front[i];
      }
    }
    if Holds(agent, front, sha) && HoldsOne(agent, last, sha) {
      forall i | 0 <= i < |changes|
        ensures HoldsOne(agent, changes[i], sha)
      {
        assert i < |front| ==> changes[i] == front[i];
      }
    }
  }

  lemma {:induction false} SourcesAreAgentFiles(agent: Node, changes: seq<FileChange>, sha: Sha)
    requires agent.Dir? && Sources(agent, changes, sha).Ok?
    ensures Resolved(changes)
    ensures forall i :: 0 <= i < |changes| ==>
              && EntryAt(agent, Target(changes[i])) == Regular(Sources(agent, changes, sha).value[i])
              && sha(Sources(agent, changes, sha).value[i]) == changes[i].postimage
    decreases |changes|
  {
    if changes == [] {
    } else {
      var front, last := changes[..|changes| - 1], changes[|changes| - 1];
      SourcesAreAgentFiles(agent, front, sha);
      var bytes := SourceOf(agent, last, sha).value;
      assert Sources(agent, changes, sha).value == Sources(agent, front, sha).value + [bytes];
      assert changes == front + [last];
      forall i | 0 <= i < |changes|
        ensures NamesOf(changes[i].path).Some?
        ensures EntryAt(agent, Target(changes[i])) == Regular(Sources(agent, changes, sha).value[i])
        ensures sha(Sources(agent, changes, sha).value[i]) == changes[i].postimage
      {
        if i < |front| {
          assert changes[i] == front[i];
        }
      }
    }
  }

  lemma ValidatedIsAttested(root: Node, agent: Node, changes: seq<FileChange>, sha: Sha)
    requires root.Dir? && agent.Dir? && Ready(root, changes, sha) && Sources(agent, changes, sha).Ok?
    ensures Attested(changes, Sources(agent, changes, sha).value, sha)
  {
    SourcesAreAgentFiles(agent, changes, sha);
  }

  // ----- Writing -----

  /** Writing one change: who can still be written afterwards. */
  lemma WritableAfter(root: Node, first: FileChange, source: Bytes, other: FileChange, sha: Sha)
    requires root.Dir? && NeverNull(sha)
    requires NamesOf(first.path).Some? && NamesOf(other.path).Some?
    requires WriteAt(root, Target(first), first.preimage, source, sha).ok
    requires Target(first) == Target(other) ==> first.preimage == other.preimage
    ensures Writable(WriteAt(root, Target(first), first.preimage, source, sha).node, Target(other), other.preimage, sha) <==>
            && Writable(root, Target(other), other.preimage, sha)
            && (Unrelated(Target(first), Target(other)) ||
                (Target(first) == Target(other) && first.preimage == sha(source)))
  {
    var p, q := Target(first), Target(other);
    WriteSucceedsExactlyWhenWritable(root, p, first.preimage, source, sha);
    if Unrelated(p, q) {
      WriteKeepsUnrelated(root, p, first.preimage, source, sha, q);
    } else if p == q {
      WriteStores(root, p, first.preimage, source, sha);
    } else {
      WriteBlocksRelated(root, p, first.preimage, source, sha, q);
    }
  }

  /** Writing all changes succeeds exactly when each is writable at the start
      and no two of them stand in each other's way. */
  lemma {:induction false} WritingSucceedsExactlyWhen(root: Node, changes: seq<FileChange>, sources: seq<Bytes>, applied: seq<string>, sha: Sha)
    requires root.Dir? && NeverNull(sha) && Attested(changes, sources, sha)
    ensures WriteAll(root, changes, sources, applied, sha).report.Ok? <==> Ready(root, changes, sha) && Compatible(changes)
    ensures WriteAll(root, changes, sources, applied, sha).report.Ok? ==>
              WriteAll(root, changes, sources, applied, sha).report.value == applied + Paths(changes)
    decreases |changes|
  {
    if changes == [] {
      assert applied + Paths(changes) == applied;
    } else {
      var first := changes[0];
      var w := WriteAt(root, Target(first), first.preimage, sources[0], sha);
      WriteSucceedsExactlyWhenWritable(root, Target(first), first.preimage, sources[0], sha);
      WriteAllStep(root, changes, sources, applied, sha);
      if w.ok {
        AttestedTail(changes, sources, sha);
        WritingSucceedsExactlyWhen(w.node, changes[1..], sources[1..], applied + [first.path], sha);
        AfterFirstWrite(root, changes, sources, sha);
        PathsOfRest(changes, applied);
      } else {
        FirstMustBeReady(root, changes, sha);
      }
    }
  }

  lemma WriteAllStep(root: Node, changes: seq<FileChange>, sources: seq<Bytes>, applied: seq<string>, sha: Sha)
    requires root.Dir? && changes != [] && |sources| == |changes| && NamesOf(changes[0].path).Some?
    ensures var w := WriteAt(root, Target(changes[0]), changes[0].preimage, sources[0], sha);
            if w.ok then WriteAll(root, changes, sources, applied, sha)
                         == WriteAll(w.node, changes[1..], sources[1..], applied + [changes[0].path], sha)
            else WriteAll(root, changes, sources, applied, sha).report.Err?
  {
  }

  lemma PathsOfRest(changes: seq<FileChange>, applied: seq<string>)
    requires changes != []
    ensures applied + [changes[0].path] + Paths(changes[1..]) == applied + Paths(changes)
  {
    assert Paths(changes) == [changes[0].path] + Paths(changes[1..]);
  }

  lemma FirstMustBeReady(root: Node, changes: seq<FileChange>, sha: Sha)
    requires root.Dir? && changes != [] && NamesOf(changes[0].path).Some?
    ensures Ready(root, changes, sha) ==> Writable(root, Target(changes[0]), changes[0].preimage, sha)
  {
  }

  /** Once the first change is written, the rest are ready and compatible
      exactly when the whole list was. */
  lemma AfterFirstWrite(root: Node, changes: seq<FileChange>, sources: seq<Bytes>, sha: Sha)
    requires root.Dir? && NeverNull(sha) && changes != [] && Attested(changes, sources, sha)
    requires WriteAt(root, Target(changes[0]), changes[0].preimage, sources[0], sha).ok
    ensures var after := WriteAt(root, Target(changes[0]), changes[0].preimage, sources[0], sha).node;
            Ready(after, changes[1..], sha) && Compatible(changes[1..]) <==>
            Ready(root, changes, sha) && Compatible(changes)
  {
    var first := changes[0];
    WriteSucceedsExactlyWhenWritable(root, Target(first), first.preimage, sources[0], sha);
    var after := WriteAt(root, Target(first), first.preimage, sources[0], sha).node;
    forall j | 0 <= j < |changes[1..]|
      ensures StaysWritable(root, after, first, changes[1..][j], sha)
    {
      WritableAfter(root, first, sources[0], changes[j + 1], sha);
    }
    ReadinessAfterFirst(root, after, changes, sha);
  }

  /** What the first write leaves of another change's readiness. */
  ghost predicate StaysWritable(root: Node, after: Node, first: FileChange, other: FileChange, sha: Sha)
    requires root.Dir? && after.Dir? && NamesOf(first.path).Some? && NamesOf(other.path).Some?
  {
    Writable(after, Target(other), other.preimage, sha) <==>
    && Writable(root, Target(other), other.preimage, sha)
    && (Unrelated(Target(first), Target(other)) ||
        (Target(first) == Target(other) && first.preimage == first.postimage))
  }

  lemma AttestedTail(changes: seq<FileChange>, sources: seq<Bytes>, sha: Sha)
    requires changes != [] && Attested(changes, sources, sha)
    ensures Attested(changes[1..], sources[1..], sha)
  {
  }

  lemma ReadinessAfterFirst(root: Node, after: Node, changes: seq<FileChange>, sha: Sha)
    requires root.Dir? && after.Dir? && changes != [] && Resolved(changes)
    requires Writable(root, Target(changes[0]), changes[0].preimage, sha)
    requires forall j :: 0 <= j < |changes[1..]| ==> StaysWritable(root, after, changes[0], changes[1..][j], sha)
    ensures Ready(after, changes[1..], sha) && Compatible(changes[1..]) <==>
            Ready(root, changes, sha) && Compatible(changes)
  {
    var rest := changes[1..];
    assert forall j :: 0 < j < |changes| ==> changes[j] == rest[j - 1];
    if Ready(after, rest, sha) && Compatible(rest) {
      forall i, j | 0 <= i < j < |changes|
        ensures || Unrelated(Target(changes[i]), Target(changes[j]))
                || (Target(changes[i]) == Target(changes[j]) && changes[i].preimage == changes[i].postimage)
      {
        if i == 0 {
          assert Writable(after, Target(rest[j - 1]), rest[j - 1].preimage, sha);
        }
      }
    }
  }

  /** What a completed series of writes leaves behind. */
  lemma {:induction false} WritingEffect(root: Node, changes: seq<FileChange>, sources: seq<Bytes>, applied: seq<string>, sha: Sha)
    requires root.Dir? && Attested(changes, sources, sha)
    requires WriteAll(root, changes, sources, applied, sha).report.Ok?
    ensures var after := WriteAll(root, changes, sources, applied, sha).root;
            && (forall i :: 0 <= i < |changes| ==> NodeAt(after, Target(changes[i])) == Some(File(sources[i])))
            && (forall names :: !Targets(changes, names) ==> LeafAt(after, names) == LeafAt(root, names))
    decreases |changes|
  {
    if changes == [] {
    } else {
      var first, rest := changes[0], changes[1..];
      var w := WriteAt(root, Target(first), first.preimage, sources[0], sha);
      var after := WriteAll(root, changes, sources, applied, sha).root;
      AttestedTail(changes, sources, sha);
      WritingEffect(w.node, rest, sources[1..], applied + [first.path], sha);
      WriteStores(root, Target(first), first.preimage, sources[0], sha);
      EntryIsFile(w.node, Target(first));
      assert forall j :: 0 < j < |changes| ==> changes[j] == rest[j - 1];
      if Targets(rest, Target(first)) {
        var j :| 0 <= j < |rest| && Target(rest[j]) == Target(first);
        assert Target(changes[0]) == Target(changes[j + 1]);
      } else {
        assert LeafAt(after, Target(first)) == LeafAt(w.node, Target(first));
      }
      forall names | !Targets(changes, names)
        ensures LeafAt(after, names) == LeafAt(root, names)
      {
        assert Target(changes[0]) != names;
        forall j | 0 <= j < |rest|
          ensures Target(rest[j]) != names
        {
          assert Target(changes[j + 1]) != names;
        }
        WriteKeepsOtherLeaves(root, Target(first), first.preimage, sources[0], sha, names);
      }
    }
  }

  /** A series of writes that stops names the change it stopped at and those
      written before, and leaves every file as after those. */
  lemma {:induction false} StopNamesWhatWasWritten(root: Node, changes: seq<FileChange>, sources: seq<Bytes>, applied: seq<string>, sha: Sha)
    requires root.Dir? && |sources| == |changes| && Resolved(changes)
    requires WriteAll(root, changes, sources, applied, sha).report.Err?
    ensures var m := WriteAll(root, changes, sources, applied, sha);
            exists k: nat :: k < |changes| && StoppedAt(root, changes, sources, applied, k, m, sha)
    decreases |changes|
  {
    if changes == [] {
    } else {
      var first := changes[0];
      var w := WriteAt(root, Target(first), first.preimage, sources[0], sha);
      var m := WriteAll(root, changes, sources, applied, sha);
      if w.ok {
        var rest, more, later := changes[1..], sources[1..], applied + [first.path];
        StopNamesWhatWasWritten(w.node, rest, more, later, sha);
        var k: nat :| k < |rest| && StoppedAt(w.node, rest, more, later, k, m, sha);
        StoppedLater(root, changes, sources, applied, k, m, sha);
      } else {
        StoppedAtFirst(root, changes, sources, applied, sha);
      }
    }
  }

  ghost predicate StoppedAt(root: Node, changes: seq<FileChange>, sources: seq<Bytes>, applied: seq<string>, k: nat,
                            m: Merge<seq<string>>, sha: Sha)
    requires root.Dir? && |sources| == |changes| && k < |changes|
  {
    var before := WriteAll(root, changes[..k], sources[..k], applied, sha);
    && before.report == Ok(applied + Paths(changes[..k]))
    && m.report == Err(Stopped(changes[k].path, applied + Paths(changes[..k])))
    && forall names :: LeafAt(m.root, names) == LeafAt(before.root, names)
  }

  lemma FirstThenRest(root: Node, changes: seq<FileChange>, sources: seq<Bytes>, applied: seq<string>, k: nat, sha: Sha)
    requires root.Dir? && |sources| == |changes| && k + 1 <= |changes| && NamesOf(changes[0].path).Some?
    requires WriteAt(root, Target(changes[0]), changes[0].preimage, sources[0], sha).ok
    ensures WriteAll(root, changes[..k + 1], sources[..k + 1], applied, sha) ==
            WriteAll(WriteAt(root, Target(changes[0]), changes[0].preimage, sources[0], sha).node,
                     changes[1..][..k], sources[1..][..k], applied + [changes[0].path], sha)
  {
    assert changes[..k + 1][1..] == changes[1..][..k] && sources[..k + 1][1..] == sources[1..][..k];
  }

  lemma PathsAfterFirst(changes: seq<FileChange>, applied: seq<string>, k: nat)
    requires k + 1 <= |changes|
    ensures applied + [changes[0].path] + Paths(changes[1..][..k]) == applied + Paths(changes[..k + 1])
  {
  }

  lemma StoppedLater(root: Node, changes: seq<FileChange>, sources: seq<Bytes>, applied: seq<string>, k: nat,
                     m: Merge<seq<string>>, sha: Sha)
    requires root.Dir? && |sources| == |changes| && k + 1 < |changes| && NamesOf(changes[0].path).Some?
    requires var w := WriteAt(root, Target(changes[0]), changes[0].preimage, sources[0], sha);
             w.ok && StoppedAt(w.node, changes[1..], sources[1..], applied + [changes[0].path], k, m, sha)
    ensures StoppedAt(root, changes, sources, applied, k + 1, m, sha)
  {
    var rest, more, later := changes[1..], sources[1..], applied + [changes[0].path];
    var w := WriteAt(root, Target(changes[0]), changes[0].preimage, sources[0], sha);
    var front, fronts := changes[..k + 1], sources[..k + 1];
    FirstThenRest(root, changes, sources, applied, k, sha);
    PathsAfterFirst(changes, applied, k);
    assert WriteAll(root, front, fronts, applied, sha) == WriteAll(w.node, rest[..k], more[..k], later, sha);
  }

  lemma StoppedAtFirst(root: Node, changes: seq<FileChange>, sources: seq<Bytes>, applied: seq<string>, sha: Sha)
    requires root.Dir? && |sources| == |changes| && changes != [] && NamesOf(changes[0].path).Some?
    requires !WriteAt(root, Target(changes[0]), changes[0].preimage, sources[0], sha).ok
    ensures StoppedAt(root, changes, sources, applied, 0, WriteAll(root, changes, sources, applied, sha), sha)
  {
    FailedWriteKeepsLeaves(root, Target(changes[0]), changes[0].preimage, sources[0], sha);
    assert changes[..0] == [] && sources[..0] == [] && applied + Paths([]) == applied;
  }

  lemma FailedWriteKeepsLeaves(n: Node, names: Names, preimage: string, content: Bytes, sha: Sha)
    requires names != [] && n.Dir? && !WriteAt(n, names, preimage, content, sha).ok
    ensures forall other :: LeafAt(WriteAt(n, names, preimage, content, sha).node, other) == LeafAt(n, other)
  {
    forall other
      ensures LeafAt(WriteAt(n, names, preimage, content, sha).node, other) == LeafAt(n, other)
    {
      if other == names {
        FailedWriteKeepsTarget(n, names, preimage, content, sha);
      } else {
        WriteKeepsOtherLeaves(n, names, preimage, content, sha, other);
      }
    }
  }

  lemma {:induction false} FailedWriteKeepsTarget(n: Node, names: Names, preimage: string, content: Bytes, sha: Sha)
    requires names != [] && n.Dir? && !WriteAt(n, names, preimage, content, sha).ok
    ensures LeafAt(WriteAt(n, names, preimage, content, sha).node, names) == LeafAt(n, names)
    decreases |names|
  {
    if |names| == 1 {
    } else if names[0] !in n.children {
      FailedWriteKeepsTarget(Dir(map[]), names[1..], preimage, content, sha);
    } else if n.children[names[0]].Dir? {
      FailedWriteKeepsTarget(n.children[names[0]], names[1..], preimage, content, sha);
    }
  }

  // ----- Merging a changeset -----

  /** After validation and with every source in place, the merge completes
      exactly when the changes do not stand in each other's way. */
  lemma MergeCompletesExactlyWhen(primary: Node, agent: Node, changes: seq<FileChange>, sha: Sha)
    requires primary.Dir? && agent.Dir? && NeverNull(sha)
    requires Conflicts(primary, changes, sha) == Ok([])
    requires Sources(agent, changes, sha).Ok?
    ensures ApplyOf(primary, agent, changes, sha).report.Ok? <==> Compatible(changes)
  {
    ValidationIsReadiness(primary, changes, sha);
    ValidatedIsAttested(primary, agent, changes, sha);
    WritingSucceedsExactlyWhen(primary, changes, Sources(agent, changes, sha).value, [], sha);
  }

  /** The primary tree holds each change's source bytes, and is otherwise the
      one it was: the whole changeset is in. */
  ghost predicate FullyMerged(before: Node, after: Node, agent: Node, changes: seq<FileChange>)
    requires agent.Dir?
  {
    && after.Dir?
    && Resolved(changes)
    && (forall i :: 0 <= i < |changes| ==>
          && EntryAt(agent, Target(changes[i])).Regular?
          && NodeAt(after, Target(changes[i])) == Some(File(EntryAt(agent, Target(changes[i])).bytes)))
    && (forall names :: !Targets(changes, names) ==> LeafAt(after, names) == LeafAt(before, names))
  }

  /** For an independent changeset, a merge puts in the whole changeset or
      touches nothing at all, whatever it reports. */
  lemma MergeIsAllOrNothing(primary: Node, agent: Node, changes: seq<FileChange>, sha: Sha)
    requires primary.Dir? && agent.Dir? && NeverNull(sha)
    requires Compatible(changes)
    ensures var m := ApplyOf(primary, agent, changes, sha);
            if m.report.Ok? && m.report.value.success
            then m.report.value.appliedFiles == Paths(changes) && FullyMerged(primary, m.root, agent, changes)
            else m.root == primary
  {
    if Conflicts(primary, changes, sha) == Ok([]) && Sources(agent, changes, sha).Ok? {
      var sources := Sources(agent, changes, sha).value;
      ValidationIsReadiness(primary, changes, sha);
      SourcesAreAgentFiles(agent, changes, sha);
      ValidatedIsAttested(primary, agent, changes, sha);
      WritingSucceedsExactlyWhen(primary, changes, sources, [], sha);
      WritingEffect(primary, changes, sources, [], sha);
    }
  }

  lemma HalfwayPaths()
    ensures NamesOf("a/b") == Some(["a", "b"]) && NamesOf("a") == Some(["a"])
  {
    assert ["a", "b"][1..] == ["b"];
    assert Join(["a", "b"]) == "a/b" && Join(["a"]) == "a";
    PlainPath(["a", "b"]);
    PlainPath(["a"]);
  }

  /** Without independence a merge can stop half way: nothing is in conflict,
      the file `a/b` is written, and then `a` is a directory. */
  lemma RelatedPathsMergeHalfway(content: Bytes, sha: Sha)
    requires NeverNull(sha)
    ensures var changes := [FileChange("a/b", NULL_HASH, sha(content)), FileChange("a", NULL_HASH, sha(content))];
            && Conflicts(Dir(map[]), changes, sha) == Ok([])
            && WriteAll(Dir(map[]), changes, [content, content], [], sha) ==
               Merge(Dir(map["a" := Dir(map["b" := File(content)])]), Err(Stopped("a", ["a/b"])))
  {
    HalfwayPaths();
    var first, second := FileChange("a/b", NULL_HASH, sha(content)), FileChange("a", NULL_HASH, sha(content));
    var changes := [first, second];
    assert Ready(Dir(map[]), changes, sha);
    ValidationIsReadiness(Dir(map[]), changes, sha);
    HalfwayWrites(content, sha);
    var halfway := Dir(map["a" := Dir(map["b" := File(content)])]);
    assert changes[1..] == [second] && [content, content][1..] == [content];
    var none: seq<string> := [];
    assert none + [first.path] == ["a/b"];
    assert WriteAll(Dir(map[]), changes, [content, content], none, sha) == WriteAll(halfway, [second], [content], ["a/b"], sha);
    assert WriteAll(halfway, [second], [content], ["a/b"], sha) == Merge(halfway, Err(Stopped("a", ["a/b"])));
  }

  lemma HalfwayWrites(content: Bytes, sha: Sha)
    ensures var halfway := Dir(map["a" := Dir(map["b" := File(content)])]);
            && WriteAt(Dir(map[]), ["a", "b"], NULL_HASH, content, sha) == Written(halfway, true)
            && WriteAt(halfway, ["a"], NULL_HASH, content, sha) == Written(halfway, false)
  {
    assert ["a", "b"][1..] == ["b"];
    var empty: map<string, Node> := map[];
    var inner := Dir(map["b" := File(content)]);
    assert WriteAt(Dir(empty), ["b"], NULL_HASH, content, sha) == Written(inner, true);
    assert empty["a" := inner] == map["a" := inner];
    assert WriteAt(Dir(empty), ["a", "b"], NULL_HASH, content, sha) == Written(Dir(empty["a" := inner]), true);
  }
}
