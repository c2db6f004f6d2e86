/** Merging what an inspection found, with neither tree changing in between. */
module InspectedMerge {
  import opened Common
  import opened FileTree
  import opened GitBroker
  import opened ChangesetPaths
  import opened MergeSafety

  /** The scanned files that `Collect` records a change for, in its order. */
  function ChangedNames(agent: Node, primary: Node, order: seq<Names>, sha: Sha): seq<Names>
    requires agent.Dir? && primary.Dir?
  {
    if order == [] then []
    else
      var front := ChangedNames(agent, primary, order[..|order| - 1], sha);
      match ChangeOf(agent, primary, order[|order| - 1], sha)
      case Ok(Some(_)) => front + [order[|order| - 1]]
      case _ => front
  }

  /** `changes` are those of `names`, in order; the rest of `order` needs none. */
  ghost predicate ChangesAlong(agent: Node, primary: Node, order: seq<Names>, names: seq<Names>, changes: seq<FileChange>, sha: Sha)
    requires agent.Dir? && primary.Dir?
  {
    && |changes| == |names|
    && (forall k :: 0 <= k < |names| ==>
          names[k] in order && ChangeOf(agent, primary, names[k], sha) == Ok(Some(changes[k])))
    && (forall p :: p in order ==> p in names || !ChangeOf(agent, primary, p, sha).Ok? ||
                                   ChangeOf(agent, primary, p, sha).value.None?)
  }

  lemma {:induction false} CollectedChanges(agent: Node, primary: Node, order: seq<Names>, sha: Sha)
    requires agent.Dir? && primary.Dir? && NoDuplicates(order)
    ensures NoDuplicates(ChangedNames(agent, primary, order, sha))
    ensures ChangesAlong(agent, primary, order, ChangedNames(agent, primary, order, sha), Collect(agent, primary, order, sha), sha)
    decreases |order|
  {
    if order == [] {
    } else {
      var front, last := order[..|order| - 1], order[|order| - 1];
      CollectedChanges(agent, primary, front, sha);
      SplitLast(order);
      AlongGrows(agent, primary, front, ChangedNames(agent, primary, front, sha), Collect(agent, primary, front, sha), last, sha);
    }
  }

  lemma AlongGrows(agent: Node, primary: Node, front: seq<Names>, names: seq<Names>, changes: seq<FileChange>, last: Names, sha: Sha)
    requires agent.Dir? && primary.Dir? && NoDuplicates(names) && last !in front
    requires ChangesAlong(agent, primary, front, names, changes, sha)
    ensures match ChangeOf(agent, primary, last, sha)
            case Ok(Some(change)) =>
              NoDuplicates(names + [last]) && ChangesAlong(agent, primary, front + [last], names + [last], changes + [change], sha)
            case _ => ChangesAlong(agent, primary, front + [last], names, changes, sha)
  {
    forall k | 0 <= k < |names|
      ensures names[k] != last
    {
      assert names[k] in front;
    }
  }

  /** Of two regular files, neither lies below the other. */
  lemma {:induction false} RegularFilesAreUnrelated(n: Node, p: Names, q: Names)
    requires n.Dir? && p != [] && q != [] && p != q
    requires EntryAt(n, p).Regular? && EntryAt(n, q).Regular?
    ensures Unrelated(p, q)
    decreases |p|
  {
    assert p == [p[0]] + p[1..] && q == [q[0]] + q[1..];
    if p[0] == q[0] && |p| > 1 && |q| > 1 {
      RegularFilesAreUnrelated(n.children[p[0]], p[1..], q[1..]);
      assert p[1..] <= q[1..] || !(p <= q);
      assert q[1..] <= p[1..] || !(q <= p);
    }
  }

  /** What one recorded change says of the two trees: of the file its path
      walks to, which need not be the file that was scanned. */
  lemma RecordedChange(agent: Node, primary: Node, names: Names, change: FileChange, sha: Sha)
    requires agent.Dir? && primary.Dir?
    requires ChangeOf(agent, primary, names, sha) == Ok(Some(change))
    ensures change.path == RelPath(names) && NamesOf(change.path).Some?
    ensures EntryAt(agent, Target(change)).Regular?
    ensures SourceOf(agent, change, sha) == Ok(EntryAt(agent, Target(change)).bytes)
    ensures change.preimage != change.postimage
    ensures ConflictOf(primary, change, sha) ==
            if EntryAt(primary, Target(change)) == Blocked
            then Ok(Some(MergeConflict(change.path, NULL_HASH, NULL_HASH)))
            else Ok(None)
  {
  }

  /** A scanned file can be compared exactly when its recorded path resolves, leads
      to a regular file of the agent, and meets in the primary no link, directory
      or special file that it would have to read. */
  lemma ComparedExactlyWhen(agent: Node, primary: Node, names: Names, sha: Sha)
    requires agent.Dir? && primary.Dir?
    ensures ChangeOf(agent, primary, names, sha).Ok? <==>
            && NamesOf(RelPath(names)).Some?
            && EntryAt(agent, NamesOf(RelPath(names)).value).Regular?
            && !EntryAt(primary, NamesOf(RelPath(names)).value).Refused?
  {
  }

  /** A visited file is not recorded exactly when the primary holds a file of
      the same hash where its path walks to. */
  lemma UnrecordedFile(agent: Node, primary: Node, names: Names, sha: Sha)
    requires agent.Dir? && primary.Dir? && NeverNull(sha) && ChangeOf(agent, primary, names, sha).Ok?
    ensures NamesOf(RelPath(names)).Some?
    ensures var walked := NamesOf(RelPath(names)).value;
            && EntryAt(agent, walked).Regular?
            && (ChangeOf(agent, primary, names, sha) == Ok(None) <==>
                && EntryAt(primary, walked).Regular?
                && sha(EntryAt(primary, walked).bytes) == sha(EntryAt(agent, walked).bytes))
  {
  }

  /** The recorded changes, each with the scanned file it was recorded for. */
  lemma InspectedChanges(agent: Node, primary: Node, order: seq<Names>, changes: seq<FileChange>, sha: Sha)
    requires IsInspection(agent, primary, order, changes, sha)
    ensures Resolved(changes)
    ensures var names := ChangedNames(agent, primary, order, sha);
            && |changes| == |names| && NoDuplicates(names)
            && forall k :: 0 <= k < |names| ==>
                 Scanned(agent, names[k]) && ChangeOf(agent, primary, names[k], sha) == Ok(Some(changes[k]))
  {
    CollectedChanges(agent, primary, order, sha);
    var names := ChangedNames(agent, primary, order, sha);
    forall k | 0 <= k < |names|
      ensures Scanned(agent, names[k]) && NamesOf(changes[k].path).Some?
    {
      assert names[k] in order;
      RecordedChange(agent, primary, names[k], changes[k], sha);
    }
  }

  /** What each change of an inspected changeset meets when it is merged. */
  ghost predicate Mergeable(agent: Node, primary: Node, change: FileChange, sha: Sha)
    requires agent.Dir? && primary.Dir? && NamesOf(change.path).Some?
  {
    && EntryAt(agent, Target(change)).Regular?
    && SourceOf(agent, change, sha).Ok?
    && change.preimage != change.postimage
    && ConflictOf(primary, change, sha) ==
       if EntryAt(primary, Target(change)) == Blocked
       then Ok(Some(MergeConflict(change.path, NULL_HASH, NULL_HASH)))
       else Ok(None)
  }

  lemma InspectedIsMergeable(agent: Node, primary: Node, order: seq<Names>, changes: seq<FileChange>, sha: Sha)
    requires IsInspection(agent, primary, order, changes, sha)
    ensures Resolved(changes)
    ensures forall k :: 0 <= k < |changes| ==> Mergeable(agent, primary, changes[k], sha)
  {
    InspectedChanges(agent, primary, order, changes, sha);
    var names := ChangedNames(agent, primary, order, sha);
    forall k | 0 <= k < |changes|
      ensures Mergeable(agent, primary, changes[k], sha)
    {
      RecordedChange(agent, primary, names[k], changes[k], sha);
    }
  }

  /** No two changes walk to one path. */
  ghost predicate DistinctTargets(changes: seq<FileChange>)
    requires Resolved(changes)
  {
    forall i, j :: 0 <= i < j < |changes| ==> Target(changes[i]) != Target(changes[j])
  }

  /** An inspected changeset never names a path below another. So its changes
      stand in each other's way exactly when two of them name one path. */
  lemma InspectionIsIndependentExactlyWhen(agent: Node, primary: Node, order: seq<Names>, changes: seq<FileChange>, sha: Sha)
    requires IsInspection(agent, primary, order, changes, sha)
    ensures Resolved(changes)
    ensures Independent(changes) <==> DistinctTargets(changes)
    ensures Compatible(changes) <==> DistinctTargets(changes)
  {
    InspectedIsMergeable(agent, primary, order, changes, sha);
    forall i, j | 0 <= i < j < |changes|
      ensures Target(changes[i]) != Target(changes[j]) <==> Unrelated(Target(changes[i]), Target(changes[j]))
    {
      assert Mergeable(agent, primary, changes[i], sha) && Mergeable(agent, primary, changes[j], sha);
      if Target(changes[i]) != Target(changes[j]) {
        RegularFilesAreUnrelated(agent, Target(changes[i]), Target(changes[j]));
      }
    }
    assert forall k :: 0 <= k < |changes| ==> Mergeable(agent, primary, changes[k], sha);
  }

  /** Scanned files recorded under one path are compared as one file. */
  lemma SameWalkSameOutcome(agent: Node, primary: Node, p: Names, q: Names, sha: Sha)
    requires agent.Dir? && primary.Dir? && NamesOf(RelPath(p)).Some? && NamesOf(RelPath(p)) == NamesOf(RelPath(q))
    ensures ChangeOf(agent, primary, p, sha) == Ok(None) <==> ChangeOf(agent, primary, q, sha) == Ok(None)
  {
  }

  /** Two scanned files recorded under one path, where the trees differ. */
  ghost predicate RecordedTwice(agent: Node, primary: Node, p: Names, q: Names, sha: Sha)
    requires agent.Dir? && primary.Dir?
  {
    && p != q && Scanned(agent, p) && Scanned(agent, q)
    && NamesOf(RelPath(p)) == NamesOf(RelPath(q)) && ChangeOf(agent, primary, p, sha) != Ok(None)
  }

  /** So an inspection names a path twice exactly when two scanned files are
      recorded under one path at which the trees differ. */
  lemma PathNamedTwiceExactlyWhen(agent: Node, primary: Node, order: seq<Names>, changes: seq<FileChange>, sha: Sha)
    requires IsInspection(agent, primary, order, changes, sha)
    ensures Resolved(changes)
    ensures !DistinctTargets(changes) <==> exists p, q :: RecordedTwice(agent, primary, p, q, sha)
  {
    InspectedChanges(agent, primary, order, changes, sha);
    var names := ChangedNames(agent, primary, order, sha);
    if i, j :| 0 <= i < j < |changes| && Target(changes[i]) == Target(changes[j]) {
      RecordedChange(agent, primary, names[i], changes[i], sha);
      RecordedChange(agent, primary, names[j], changes[j], sha);
      assert RecordedTwice(agent, primary, names[i], names[j], sha);
    }
    if p, q :| RecordedTwice(agent, primary, p, q, sha) {
      var i := ChangeFor(agent, primary, order, changes, p, sha);
      SameWalkSameOutcome(agent, primary, p, q, sha);
      var j := ChangeFor(agent, primary, order, changes, q, sha);
      assert Target(changes[i]) == Target(changes[j]);
    }
  }

  /** The change recorded for a scanned file that differs. */
  lemma ChangeFor(agent: Node, primary: Node, order: seq<Names>, changes: seq<FileChange>, p: Names, sha: Sha) returns (k: nat)
    requires IsInspection(agent, primary, order, changes, sha)
    requires Scanned(agent, p) && ChangeOf(agent, primary, p, sha) != Ok(None)
    ensures k < |changes| && k < |ChangedNames(agent, primary, order, sha)|
    ensures ChangedNames(agent, primary, order, sha)[k] == p
    ensures Resolved(changes) && NamesOf(RelPath(p)) == Some(Target(changes[k]))
  {
    InspectedChanges(agent, primary, order, changes, sha);
    CollectedChanges(agent, primary, order, sha);
    var names := ChangedNames(agent, primary, order, sha);
    assert p in order && ChangeOf(agent, primary, p, sha).Ok?;
    k :| 0 <= k < |names| && names[k] == p;
    RecordedChange(agent, primary, p, changes[k], sha);
  }

  lemma EveryScannedFileIsAccountedFor(agent: Node, primary: Node, order: seq<Names>, changes: seq<FileChange>, sha: Sha, p: Names)
    requires IsInspection(agent, primary, order, changes, sha) && Scanned(agent, p)
    ensures Resolved(changes) && NamesOf(RelPath(p)).Some?
    ensures Targets(changes, NamesOf(RelPath(p)).value) || ChangeOf(agent, primary, p, sha) == Ok(None)
  {
    InspectedChanges(agent, primary, order, changes, sha);
    CollectedChanges(agent, primary, order, sha);
    var names := ChangedNames(agent, primary, order, sha);
    assert p in order && ChangeOf(agent, primary, p, sha).Ok?;
    if p in names {
      var k :| 0 <= k < |names| && names[k] == p;
      RecordedChange(agent, primary, p, changes[k], sha);
      assert Target(changes[k]) == NamesOf(RelPath(p)).value;
    }
  }

  /** A path is blocked exactly when one of its proper prefixes is a file or a
      special file. */
  lemma {:induction false} BlockedMeansNoDirectory(n: Node, names: Names)
    requires n.Dir? && names != []
    ensures EntryAt(n, names) == Blocked <==>
            exists k :: 0 < k < |names| && NodeAt(n, names[..k]).Some? &&
                        (NodeAt(n, names[..k]).value.File? || NodeAt(n, names[..k]).value.Special?)
    decreases |names|
  {
    assert forall k :: 0 < k < |names| ==> names[..k][0] == names[0] && names[..k][1..] == names[1..][..k - 1];
    if names[0] in n.children && |names| > 1 {
      var child := n.children[names[0]];
      if child.Dir? {
        BlockedMeansNoDirectory(child, names[1..]);
        if k :| 0 < k < |names[1..]| && NodeAt(child, names[1..][..k]).Some? &&
                (NodeAt(child, names[1..][..k]).value.File? || NodeAt(child, names[1..][..k]).value.Special?) {
          assert NodeAt(n, names[..k + 1]) == NodeAt(child, names[1..][..k]);
        }
        assert NodeAt(n, names[..1]) == Some(child);
      } else {
        assert NodeAt(n, names[..1]) == Some(child);
        forall k | 1 < k < |names|
          ensures NodeAt(n, names[..k]).None?
        {
          assert names[1..][..k - 1] != [];
        }
      }
    }
  }

  predicate Raises(primary: Node, change: FileChange, c: MergeConflict, sha: Sha)
    requires primary.Dir?
  {
    ConflictOf(primary, change, sha) == Ok(Some(c))
  }

  lemma {:induction false} ConflictsAreThoseOfChanges(primary: Node, changes: seq<FileChange>, sha: Sha)
    requires primary.Dir? && Resolved(changes)
    ensures Conflicts(primary, changes, sha).Ok?
    ensures forall c :: c in Conflicts(primary, changes, sha).value <==>
              exists k :: 0 <= k < |changes| && Raises(primary, changes[k], c, sha)
    decreases |changes|
  {
    if changes == [] {
    } else {
      var front, last := changes[..|changes| - 1], changes[|changes| - 1];
      ConflictsAreThoseOfChanges(primary, front, sha);
      var before, after := Conflicts(primary, front, sha).value, Conflicts(primary, changes, sha).value;
      assert NamesOf(last.path).Some?;
      assert forall c :: c in after <==> c in before || Raises(primary, last, c, sha);
      SplitLast(changes);
      RaisedInFrontOrLast(primary, front, last, sha);
    }
  }

  lemma RaisedInFrontOrLast(primary: Node, front: seq<FileChange>, last: FileChange, sha: Sha)
    requires primary.Dir?
    ensures forall c :: (exists k :: 0 <= k < |front + [last]| && Raises(primary, (front + [last])[k], c, sha)) <==>
                        Raises(primary, last, c, sha) || exists k :: 0 <= k < |front| && Raises(primary, front[k], c, sha)
  {
    var all := front + [last];
    assert all[|front|] == last;
    assert forall k :: 0 <= k < |front| ==> all[k] == front[k];
  }

  ghost predicate SomeTargetBlocked(primary: Node, changes: seq<FileChange>)
    requires primary.Dir? && Resolved(changes)
  {
    exists k :: 0 <= k < |changes| && EntryAt(primary, Target(changes[k])) == Blocked
  }

  /** The conflicts of a changeset whose changes conflict only when blocked. */
  lemma OnlyBlockedConflict(primary: Node, changes: seq<FileChange>, sha: Sha)
    requires primary.Dir? && Resolved(changes)
    requires forall k :: 0 <= k < |changes| ==>
               ConflictOf(primary, changes[k], sha) ==
               if EntryAt(primary, Target(changes[k])) == Blocked
               then Ok(Some(MergeConflict(changes[k].path, NULL_HASH, NULL_HASH)))
               else Ok(None)
    ensures Conflicts(primary, changes, sha).Ok?
    ensures forall c :: c in Conflicts(primary, changes, sha).value <==>
              exists k :: 0 <= k < |changes| && EntryAt(primary, Target(changes[k])) == Blocked &&
                          c == MergeConflict(changes[k].path, NULL_HASH, NULL_HASH)
    ensures Conflicts(primary, changes, sha).value == [] <==> !SomeTargetBlocked(primary, changes)
  {
    ConflictsAreThoseOfChanges(primary, changes, sha);
    var conflicts := Conflicts(primary, changes, sha).value;
    if k :| 0 <= k < |changes| && EntryAt(primary, Target(changes[k])) == Blocked {
      assert MergeConflict(changes[k].path, NULL_HASH, NULL_HASH) in conflicts;
    }
    if conflicts != [] {
      assert conflicts[0] in conflicts;
    }
  }

  lemma AllSourcesFound(agent: Node, changes: seq<FileChange>, sha: Sha)
    requires agent.Dir?
    requires forall k :: 0 <= k < |changes| ==> SourceOf(agent, changes[k], sha).Ok?
    ensures Sources(agent, changes, sha).Ok?
    decreases |changes|
  {
    if changes == [] {
    } else {
      AllSourcesFound(agent, changes[..|changes| - 1], sha);
    }
  }

  /** Merging an inspected changeset into the unchanged primary. If some of its
      paths are blocked, each of those is reported as a conflict, nothing else
      is, and nothing is written. Otherwise it succeeds on every file exactly when no two of its
      changes name one path; when two do, it stops half way. */
  lemma InspectedMergeOutcome(agent: Node, primary: Node, order: seq<Names>, changes: seq<FileChange>, sha: Sha)
    requires IsInspection(agent, primary, order, changes, sha) && NeverNull(sha)
    ensures Resolved(changes)
    ensures var m := ApplyOf(primary, agent, changes, sha);
            if SomeTargetBlocked(primary, changes)
            then
              && m.root == primary
              && m.report.Ok? && !m.report.value.success && m.report.value.appliedFiles == []
              && forall c :: c in m.report.value.conflicts <==>
                   exists k :: 0 <= k < |changes| && EntryAt(primary, Target(changes[k])) == Blocked &&
                               c == MergeConflict(changes[k].path, NULL_HASH, NULL_HASH)
            else
              && (m.report.Ok? <==> DistinctTargets(changes))
              && (m.report.Ok? ==>
                    && m.report.value.success && m.report.value.appliedFiles == Paths(changes)
                    && FullyMerged(primary, m.root, agent, changes))
  {
    InspectedIsMergeable(agent, primary, order, changes, sha);
    forall k | 0 <= k < |changes|
      ensures SourceOf(agent, changes[k], sha).Ok?
      ensures ConflictOf(primary, changes[k], sha) ==
              if EntryAt(primary, Target(changes[k])) == Blocked
              then Ok(Some(MergeConflict(changes[k].path, NULL_HASH, NULL_HASH)))
              else Ok(None)
    {
      assert Mergeable(agent, primary, changes[k], sha);
    }
    OnlyBlockedConflict(primary, changes, sha);
    if !SomeTargetBlocked(primary, changes) {
      AllSourcesFound(agent, changes, sha);
      UnblockedMerge(agent, primary, order, changes, sha);
    }
  }

  lemma UnblockedMerge(agent: Node, primary: Node, order: seq<Names>, changes: seq<FileChange>, sha: Sha)
    requires IsInspection(agent, primary, order, changes, sha) && NeverNull(sha)
    requires Conflicts(primary, changes, sha) == Ok([]) && Sources(agent, changes, sha).Ok?
    ensures Resolved(changes)
    ensures var m := ApplyOf(primary, agent, changes, sha);
            && (m.report.Ok? <==> DistinctTargets(changes))
            && (m.report.Ok? ==>
                  && m.report.value.success && m.report.value.appliedFiles == Paths(changes)
                  && FullyMerged(primary, m.root, agent, changes))
  {
    InspectionIsIndependentExactlyWhen(agent, primary, order, changes, sha);
    MergeCompletesExactlyWhen(primary, agent, changes, sha);
    if Compatible(changes) {
      MergeIsAllOrNothing(primary, agent, changes, sha);
    }
  }

  /** Where names are text without backslashes an inspection names no path twice,
      so its merge fails only when blocked, and is then all or nothing. */
  lemma RecordableMergeOutcome(agent: Node, primary: Node, order: seq<Names>, changes: seq<FileChange>, sha: Sha)
    requires IsInspection(agent, primary, order, changes, sha)
    requires Recordable(agent) && NeverNull(sha)
    ensures Resolved(changes) && DistinctTargets(changes)
    ensures var m := ApplyOf(primary, agent, changes, sha);
            && m.report.Ok?
            && (m.report.value.success <==> !SomeTargetBlocked(primary, changes))
            && (m.report.value.success ==> FullyMerged(primary, m.root, agent, changes))
            && (!m.report.value.success ==> m.root == primary)
  {
    InspectedChanges(agent, primary, order, changes, sha);
    var names := ChangedNames(agent, primary, order, sha);
    forall k | 0 <= k < |changes|
      ensures Target(changes[k]) == names[k]
    {
      RecordedChange(agent, primary, names[k], changes[k], sha);
      RecordedPathLeadsBack(names[k]);
    }
    InspectedMergeOutcome(agent, primary, order, changes, sha);
  }

  /** The changeset inspected in `BackslashWorkspace` names `a/b` twice: merging
      it writes the file and then stops. */
  lemma BackslashMergeStopsHalfway(content: Bytes, sha: Sha)
    requires NeverNull(sha)
    ensures var change := FileChange("a/b", NULL_HASH, sha(content));
            && IsInspection(BackslashWorkspace(content), Dir(map[]), [["a\\b"], ["a", "b"]], [change, change], sha)
            && ApplyOf(Dir(map[]), BackslashWorkspace(content), [change, change], sha) ==
               Merge(Dir(map["a" := Dir(map["b" := File(content)])]), Err(Stopped("a/b", ["a/b"])))
  {
    BackslashRecordsTwice(content, sha);
    BackslashSources(content, sha);
    BackslashIsReady(content, sha);
    BackslashWrites(content, sha);
  }

  lemma BackslashIsReady(content: Bytes, sha: Sha)
    requires NeverNull(sha)
    ensures var change := FileChange("a/b", NULL_HASH, sha(content));
            Conflicts(Dir(map[]), [change, change], sha) == Ok([])
  {
    HalfwayPaths();
    var change := FileChange("a/b", NULL_HASH, sha(content));
    assert Ready(Dir(map[]), [change, change], sha);
    ValidationIsReadiness(Dir(map[]), [change, change], sha);
  }

  lemma BackslashWrites(content: Bytes, sha: Sha)
    requires NeverNull(sha)
    ensures var change := FileChange("a/b", NULL_HASH, sha(content));
            WriteAll(Dir(map[]), [change, change], [content, content], [], sha) ==
            Merge(Dir(map["a" := Dir(map["b" := File(content)])]), Err(Stopped("a/b", ["a/b"])))
  {
    HalfwayPaths();
    HalfwayWrites(content, sha);
    SecondWriteFails(content, sha);
    var change := FileChange("a/b", NULL_HASH, sha(content));
    var halfway := Dir(map["a" := Dir(map["b" := File(content)])]);
    assert [change, change][1..] == [change] && [content, content][1..] == [content];
    var none: seq<string> := [];
    assert none + ["a/b"] == ["a/b"];
    assert WriteAll(halfway, [change], [content], ["a/b"], sha) == Merge(halfway, Err(Stopped("a/b", ["a/b"])));
    assert WriteAll(Dir(map[]), [change, change], [content, content], none, sha) == WriteAll(halfway, [change], [content], ["a/b"], sha);
  }

  lemma BackslashSources(content: Bytes, sha: Sha)
    ensures var change := FileChange("a/b", NULL_HASH, sha(content));
            Sources(BackslashWorkspace(content), [change, change], sha) == Ok([content, content])
  {
    var agent, change := BackslashWorkspace(content), FileChange("a/b", NULL_HASH, sha(content));
    BackslashSource(content, sha);
    SourcesGrow(agent, [], [], change, content, sha);
    assert [] + [change] == [change] && [] + [content] == [content];
    SourcesGrow(agent, [change], [content], change, content, sha);
    assert [change] + [change] == [change, change] && [content] + [content] == [content, content];
  }

  lemma SourcesGrow(agent: Node, changes: seq<FileChange>, sources: seq<Bytes>, change: FileChange, bytes: Bytes, sha: Sha)
    requires agent.Dir? && Sources(agent, changes, sha) == Ok(sources) && SourceOf(agent, change, sha) == Ok(bytes)
    ensures Sources(agent, changes + [change], sha) == Ok(sources + [bytes])
  {
    assert (changes + [change])[..|changes|] == changes;
  }

  lemma BackslashSource(content: Bytes, sha: Sha)
    ensures SourceOf(BackslashWorkspace(content), FileChange("a/b", NULL_HASH, sha(content)), sha) == Ok(content)
  {
    HalfwayPaths();
    BackslashWalk(content);
  }

  lemma SecondWriteFails(content: Bytes, sha: Sha)
    requires NeverNull(sha)
    ensures var halfway := Dir(map["a" := Dir(map["b" := File(content)])]);
            WriteAt(halfway, ["a", "b"], NULL_HASH, content, sha) == Written(halfway, false)
  {
    var inner := Dir(map["b" := File(content)]);
    var children := map["a" := inner];
    assert ["a", "b"][1..] == ["b"];
    assert WriteAt(inner, ["b"], NULL_HASH, content, sha) == Written(inner, false);
    assert children["a" := inner] == children;
  }

  /** No two different contents that stand at one path of the two trees hash
      alike. */
  ghost predicate NoCollisionBetween(agent: Node, primary: Node, sha: Sha) {
    forall p, a, b ::
      NodeAt(agent, p) == Some(File(a)) && NodeAt(primary, p) == Some(File(b)) && sha(a) == sha(b) ==> a == b
  }

  /** The merge went through. */
  ghost predicate Succeeds(agent: Node, primary: Node, changes: seq<FileChange>, sha: Sha)
    requires agent.Dir? && primary.Dir?
  {
    var report := ApplyOf(primary, agent, changes, sha).report;
    report.Ok? && report.value.success
  }

  /** The file a scanned file's recorded path walks to, after a successful
      merge: the agent's bytes if it was changed, and otherwise the primary's,
      which hash alike. */
  lemma ScannedFileAfterMerge(agent: Node, primary: Node, order: seq<Names>, changes: seq<FileChange>, sha: Sha, p: Names)
    requires IsInspection(agent, primary, order, changes, sha) && NeverNull(sha)
    requires Succeeds(agent, primary, changes, sha) && Scanned(agent, p)
    ensures NamesOf(RelPath(p)).Some? && Resolved(changes)
    ensures var after, walked := ApplyOf(primary, agent, changes, sha).root, NamesOf(RelPath(p)).value;
            && EntryAt(agent, walked).Regular?
            && EntryAt(after, walked).Regular?
            && if Targets(changes, walked)
               then EntryAt(after, walked) == EntryAt(agent, walked)
               else
                 && EntryAt(after, walked) == EntryAt(primary, walked)
                 && sha(EntryAt(primary, walked).bytes) == sha(EntryAt(agent, walked).bytes)
  {
    InspectedMergeOutcome(agent, primary, order, changes, sha);
    EveryScannedFileIsAccountedFor(agent, primary, order, changes, sha, p);
    assert p in order;
    UnrecordedFile(agent, primary, p, sha);
    var after, walked := ApplyOf(primary, agent, changes, sha).root, NamesOf(RelPath(p)).value;
    EntryIsFile(after, walked);
    EntryIsFile(primary, walked);
    if Targets(changes, walked) {
      var k :| 0 <= k < |changes| && Target(changes[k]) == walked;
    } else {
      assert LeafAt(after, walked) == LeafAt(primary, walked);
    }
  }

  /** Some scanned file's recorded path walks to `names`. */
  ghost predicate WalkedTo(agent: Node, names: Names) {
    exists p :: Scanned(agent, p) && NamesOf(RelPath(p)) == Some(names)
  }

  /** After a successful merge the primary holds, byte for byte, every agent
      file that a recorded path walks to: so every scanned file whose names are
      text and hold no backslash. No other file of the primary changed. */
  lemma MergedPrimaryHoldsAgentFiles(agent: Node, primary: Node, order: seq<Names>, changes: seq<FileChange>, sha: Sha)
    requires IsInspection(agent, primary, order, changes, sha)
    requires NeverNull(sha) && NoCollisionBetween(agent, primary, sha) && Succeeds(agent, primary, changes, sha)
    ensures var after := ApplyOf(primary, agent, changes, sha).root;
            && (forall names :: WalkedTo(agent, names) ==> NodeAt(after, names) == NodeAt(agent, names))
            && (forall p :: Scanned(agent, p) && FileNames(p) && AllText(p) && NoBackslash(p) ==> NodeAt(after, p) == NodeAt(agent, p))
            && (forall names :: !WalkedTo(agent, names) ==> LeafAt(after, names) == LeafAt(primary, names))
  {
    var after := ApplyOf(primary, agent, changes, sha).root;
    forall names | WalkedTo(agent, names)
      ensures NodeAt(after, names) == NodeAt(agent, names)
    {
      var p :| Scanned(agent, p) && NamesOf(RelPath(p)) == Some(names);
      AgentFileIsInPrimary(agent, primary, order, changes, sha, p);
    }
    forall p | Scanned(agent, p) && FileNames(p) && AllText(p) && NoBackslash(p)
      ensures NodeAt(after, p) == NodeAt(agent, p)
    {
      RecordedPathLeadsBack(p);
      AgentFileIsInPrimary(agent, primary, order, changes, sha, p);
    }
    forall names | !WalkedTo(agent, names)
      ensures LeafAt(after, names) == LeafAt(primary, names)
    {
      OnlyWalkedFilesChange(agent, primary, order, changes, sha, names);
    }
  }

  lemma AgentFileIsInPrimary(agent: Node, primary: Node, order: seq<Names>, changes: seq<FileChange>, sha: Sha, p: Names)
    requires IsInspection(agent, primary, order, changes, sha)
    requires NeverNull(sha) && NoCollisionBetween(agent, primary, sha) && Succeeds(agent, primary, changes, sha)
    requires Scanned(agent, p)
    ensures NamesOf(RelPath(p)).Some?
    ensures var walked := NamesOf(RelPath(p)).value;
            NodeAt(ApplyOf(primary, agent, changes, sha).root, walked) == NodeAt(agent, walked)
  {
    ScannedFileAfterMerge(agent, primary, order, changes, sha, p);
    var walked := NamesOf(RelPath(p)).value;
    EntryIsFile(agent, walked);
    EntryIsFile(primary, walked);
    EntryIsFile(ApplyOf(primary, agent, changes, sha).root, walked);
  }

  lemma OnlyWalkedFilesChange(agent: Node, primary: Node, order: seq<Names>, changes: seq<FileChange>, sha: Sha, names: Names)
    requires IsInspection(agent, primary, order, changes, sha) && NeverNull(sha) && Succeeds(agent, primary, changes, sha)
    requires !WalkedTo(agent, names)
    ensures LeafAt(ApplyOf(primary, agent, changes, sha).root, names) == LeafAt(primary, names)
  {
    InspectedMergeOutcome(agent, primary, order, changes, sha);
    InspectedChanges(agent, primary, order, changes, sha);
    var scanned := ChangedNames(agent, primary, order, sha);
    forall k | 0 <= k < |changes|
      ensures Target(changes[k]) != names
    {
      RecordedChange(agent, primary, scanned[k], changes[k], sha);
    }
  }

  /** After a successful merge, inspecting again cannot fail and finds nothing. */
  lemma ReinspectionFindsNothing(agent: Node, primary: Node, order: seq<Names>, changes: seq<FileChange>, sha: Sha)
    requires IsInspection(agent, primary, order, changes, sha)
    requires NeverNull(sha) && Succeeds(agent, primary, changes, sha)
    ensures var after := ApplyOf(primary, agent, changes, sha).root;
            && (forall p :: Scanned(agent, p) ==> ChangeOf(agent, after, p, sha) == Ok(None))
            && (forall orderAgain, again :: IsInspection(agent, after, orderAgain, again, sha) ==> again == [])
  {
    var after := ApplyOf(primary, agent, changes, sha).root;
    forall p | Scanned(agent, p)
      ensures ChangeOf(agent, after, p, sha) == Ok(None)
    {
      ScannedFileAfterMerge(agent, primary, order, changes, sha, p);
    }
    forall orderAgain, again | IsInspection(agent, after, orderAgain, again, sha)
      ensures again == []
    {
      NothingCollected(agent, after, orderAgain, sha);
    }
  }

  lemma NothingCollected(agent: Node, primary: Node, order: seq<Names>, sha: Sha)
    requires agent.Dir? && primary.Dir?
    requires forall p :: p in order ==> ChangeOf(agent, primary, p, sha) == Ok(None)
    ensures Collect(agent, primary, order, sha) == []
  {
    if order == [] {
    } else {
      NothingCollected(agent, primary, order[..|order| - 1], sha);
    }
  }
}
