/** Agent files whose names are bytes but not text. Each is recorded under the
    name it is shown as, which need not be the name of any file. */
module NamesNotText {
  import opened Common
  import opened FileTree
  import opened GitBroker
  import opened Utf8
  import opened ChangesetPaths
  import opened MergeSafety
  import opened InspectedMerge

  /** `x` and a byte that no character starts with. */
  const RAW: string := ['x', 0xFF as char]

  /** What that name is shown as, itself a name that a file can have. */
  const SHOWN: string := ['x'] + REPLACEMENT

  lemma RawIsShown()
    ensures Lossy(RAW) == SHOWN && !IsText(RAW) && IsText(SHOWN) && '\\' !in SHOWN
  {
    assert Part(RAW) == 1 && RAW[1..] == [0xFF as char];
    assert Part(RAW[1..]) == 1 && !StartsWithCharacter(RAW[1..]) && RAW[1..][1..] == [];
    assert Lossy(RAW[1..]) == REPLACEMENT + [] == REPLACEMENT;
    assert RAW[..1] == ['x'];
    ShownAsItselfExactlyWhen(RAW);
  }

  lemma RawPaths()
    ensures RelPath([RAW]) == SHOWN && RelPath([SHOWN]) == SHOWN && NamesOf(SHOWN) == Some([SHOWN]) && RAW != SHOWN
  {
    RawIsShown();
    assert Join([RAW]) == RAW && Join([SHOWN]) == SHOWN;
    assert ReplaceBackslashes(SHOWN) == SHOWN;
    assert FileNames([SHOWN]) && AllText([SHOWN]) && NoBackslash([SHOWN]);
    RecordedPathLeadsBack([SHOWN]);
  }

  lemma FilesAreScanned(files: map<string, Node>, names: Names)
    requires forall name :: name in files ==> files[name].File? && !Skipped(name)
    ensures Scanned(Dir(files), names) <==> |names| == 1 && names[0] in files
  {
  }

  // ----- Alone -----

  /** A workspace with such a file, and no file of the name it is shown as,
      cannot be inspected. */
  lemma RawNameAloneFails(lost: Bytes, primary: Node, order: seq<Names>, changes: seq<FileChange>, sha: Sha)
    requires primary.Dir?
    ensures Scanned(Dir(map[RAW := File(lost)]), [RAW])
    ensures ChangeOf(Dir(map[RAW := File(lost)]), primary, [RAW], sha) == Err(Disappeared(SHOWN))
    ensures !IsInspection(Dir(map[RAW := File(lost)]), primary, order, changes, sha)
  {
    RawPaths();
    FilesAreScanned(map[RAW := File(lost)], [RAW]);
  }

  // ----- Beside a file of the name it is shown as -----

  function RawWorkspace(lost: Bytes, content: Bytes): Node {
    Dir(map[RAW := File(lost), SHOWN := File(content)])
  }

  lemma RawWorkspaceScan(lost: Bytes, content: Bytes, names: Names)
    ensures Scanned(RawWorkspace(lost, content), names) <==> names in [[RAW], [SHOWN]]
  {
    assert RAW[0] == 'x' && SHOWN[0] == 'x';
    FilesAreScanned(RawWorkspace(lost, content).children, names);
    if |names| == 1 {
      assert names == [names[0]];
    }
  }

  /** Both files are compared as the one whose name is shown. */
  lemma RawWorkspaceChange(lost: Bytes, content: Bytes, primary: Node, names: Names, sha: Sha)
    requires primary.Dir? && (names == [RAW] || names == [SHOWN])
    ensures ChangeOf(RawWorkspace(lost, content), primary, names, sha)
         == ChangeOf(Dir(map[SHOWN := File(content)]), primary, [SHOWN], sha)
  {
    RawPaths();
    assert EntryAt(RawWorkspace(lost, content), [SHOWN]) == Regular(content);
    assert EntryAt(Dir(map[SHOWN := File(content)]), [SHOWN]) == Regular(content);
  }

  lemma RawInspection(lost: Bytes, content: Bytes, primary: Node, sha: Sha)
    requires primary.Dir? && ChangeOf(Dir(map[SHOWN := File(content)]), primary, [SHOWN], sha).Ok?
    ensures IsInspection(RawWorkspace(lost, content), primary, [[RAW], [SHOWN]],
                         Collect(RawWorkspace(lost, content), primary, [[RAW], [SHOWN]], sha), sha)
  {
    RawPaths();
    var order := [[RAW], [SHOWN]];
    assert order[0] != order[1];
    forall names
      ensures names in order <==> Scanned(RawWorkspace(lost, content), names)
    {
      RawWorkspaceScan(lost, content, names);
    }
    RawWorkspaceChange(lost, content, primary, [RAW], sha);
    RawWorkspaceChange(lost, content, primary, [SHOWN], sha);
  }

  /** When neither is in the primary, one path is recorded twice, and merging
      writes it and then stops. */
  lemma RawNameMergeStopsHalfway(lost: Bytes, content: Bytes, sha: Sha)
    requires NeverNull(sha)
    ensures var change := FileChange(SHOWN, NULL_HASH, sha(content));
            && IsInspection(RawWorkspace(lost, content), Dir(map[]), [[RAW], [SHOWN]], [change, change], sha)
            && ApplyOf(Dir(map[]), RawWorkspace(lost, content), [change, change], sha) ==
               Merge(Dir(map[SHOWN := File(content)]), Err(Stopped(SHOWN, [SHOWN])))
  {
    RawPaths();
    var agent, change := RawWorkspace(lost, content), FileChange(SHOWN, NULL_HASH, sha(content));
    assert ChangeOf(Dir(map[SHOWN := File(content)]), Dir(map[]), [SHOWN], sha) == Ok(Some(change));
    RawInspection(lost, content, Dir(map[]), sha);
    RawWorkspaceChange(lost, content, Dir(map[]), [RAW], sha);
    RawWorkspaceChange(lost, content, Dir(map[]), [SHOWN], sha);
    CollectTwo(agent, Dir(map[]), [RAW], [SHOWN], sha);
    RawIsReady(content, sha);
    RawSources(lost, content, sha);
    RawWrites(content, sha);
  }

  lemma RawIsReady(content: Bytes, sha: Sha)
    requires NeverNull(sha)
    ensures var change := FileChange(SHOWN, NULL_HASH, sha(content));
            Conflicts(Dir(map[]), [change, change], sha) == Ok([])
  {
    RawPaths();
    var change := FileChange(SHOWN, NULL_HASH, sha(content));
    assert Ready(Dir(map[]), [change, change], sha);
    ValidationIsReadiness(Dir(map[]), [change, change], sha);
  }

  lemma RawSources(lost: Bytes, content: Bytes, sha: Sha)
    ensures var change := FileChange(SHOWN, NULL_HASH, sha(content));
            Sources(RawWorkspace(lost, content), [change, change], sha) == Ok([content, content])
  {
    RawPaths();
    var agent, change := RawWorkspace(lost, content), FileChange(SHOWN, NULL_HASH, sha(content));
    assert SourceOf(agent, change, sha) == Ok(content);
    SourcesGrow(agent, [], [], change, content, sha);
    assert [] + [change] == [change] && [] + [content] == [content];
    SourcesGrow(agent, [change], [content], change, content, sha);
    assert [change] + [change] == [change, change] && [content] + [content] == [content, content];
  }

  lemma RawWrites(content: Bytes, sha: Sha)
    requires NeverNull(sha)
    ensures var change := FileChange(SHOWN, NULL_HASH, sha(content));
            WriteAll(Dir(map[]), [change, change], [content, content], [], sha) ==
            Merge(Dir(map[SHOWN := File(content)]), Err(Stopped(SHOWN, [SHOWN])))
  {
    RawPaths();
    var change, halfway := FileChange(SHOWN, NULL_HASH, sha(content)), Dir(map[SHOWN := File(content)]);
    var empty: map<string, Node> := map[];
    assert empty[SHOWN := File(content)] == map[SHOWN := File(content)];
    assert WriteAt(Dir(empty), [SHOWN], NULL_HASH, content, sha) == Written(halfway, true);
    assert WriteAt(halfway, [SHOWN], NULL_HASH, content, sha) == Written(halfway, false);
    assert [change, change][1..] == [change] && [content, content][1..] == [content];
    var none: seq<string> := [];
    assert none + [SHOWN] == [SHOWN];
    assert WriteAll(halfway, [change], [content], [SHOWN], sha) == Merge(halfway, Err(Stopped(SHOWN, [SHOWN])));
    assert WriteAll(Dir(empty), [change, change], [content, content], none, sha) == WriteAll(halfway, [change], [content], [SHOWN], sha);
  }

  /** When the primary already holds the other file, nothing is recorded and the
      merge succeeds; the file whose name is not text never reaches it. */
  lemma RawNameIsNeverMerged(lost: Bytes, content: Bytes, sha: Sha)
    requires NeverNull(sha)
    ensures var agent, primary := RawWorkspace(lost, content), Dir(map[SHOWN := File(content)]);
            && IsInspection(agent, primary, [[RAW], [SHOWN]], [], sha)
            && Succeeds(agent, primary, [], sha)
            && Scanned(agent, [RAW])
            && NodeAt(ApplyOf(primary, agent, [], sha).root, [RAW]) == None
  {
    RawPaths();
    var agent, primary := RawWorkspace(lost, content), Dir(map[SHOWN := File(content)]);
    assert ChangeOf(primary, primary, [SHOWN], sha) == Ok(None);
    RawInspection(lost, content, primary, sha);
    RawWorkspaceChange(lost, content, primary, [RAW], sha);
    RawWorkspaceChange(lost, content, primary, [SHOWN], sha);
    NothingCollected(agent, primary, [[RAW], [SHOWN]], sha);
    RawWorkspaceScan(lost, content, [RAW]);
  }
}
