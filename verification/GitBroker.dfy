/** Inspecting an agent workspace, validating preimages and merging
    (crates/git-broker/src/broker.rs). */
module GitBroker {
  import opened Common
  import opened FileTree
  import opened Utf8

  datatype FileChange = FileChange(path: string, preimage: string, postimage: string)

  datatype MergeConflict = MergeConflict(path: string, expectedPreimage: string, actualCurrentHash: string)

  datatype MergeResult = MergeResult(success: bool, appliedFiles: seq<string>, conflicts: seq<MergeConflict>)

  datatype BrokerError =
    | BadPath(path: string)
    | Disappeared(path: string)
    | NoPreimage(path: string)
    | GoneFromAgent(path: string)
    | Stale(path: string)
    | Stopped(path: string, applied: seq<string>)
    | NoWorkspace

  // ----- Scanning -----

  /** Directory and file names a scan passes over. */
  predicate Skipped(name: string) {
    name == ".git" || name == ".vitna" || name == "target" || name == "node_modules"
  }

  /** `names` is a regular file that a scan of `n` visits. */
  predicate Scanned(n: Node, names: Names)
    decreases |names|
  {
    && n.Dir?
    && names != []
    && names[0] in n.children
    && !Skipped(names[0])
    && var child := n.children[names[0]];
       if |names| == 1 then child.File? else Scanned(child, names[1..])
  }

  /** What is scanned is exactly the regular files no name of whose path is one
      of the four that are passed over. */
  lemma {:induction false} ScannedExactlyWhen(n: Node, names: Names)
    requires n.Dir?
    ensures Scanned(n, names) <==>
            && names != [] && NodeAt(n, names).Some? && NodeAt(n, names).value.File?
            && forall i :: 0 <= i < |names| ==> names[i] !in {".git", ".vitna", "target", "node_modules"}
    decreases |names|
  {
    if names == [] {
    } else {
      assert names == [names[0]] + names[1..];
      if names[0] in n.children && |names| > 1 {
        var child := n.children[names[0]];
        if child.Dir? {
          ScannedExactlyWhen(child, names[1..]);
        }
        assert forall i :: 0 < i < |names| ==> names[i] == names[1..][i - 1];
      }
    }
  }

  function ReplaceBackslashes(s: string): string {
    seq(|s|, i requires 0 <= i < |s| => if s[i] == '\\' then '/' else s[i])
  }

  /** The path a changeset records for a scanned file: names are bytes, and what
      in them is not text is replaced. */
  function RelPath(names: Names): string {
    ReplaceBackslashes(Lossy(Join(names)))
  }

  /** Passing over a name by how it is shown passes over no other name. */
  lemma ShownNameIsSkippedExactlyWhen(name: string)
    ensures Skipped(Lossy(name)) <==> Skipped(name)
  {
    if Skipped(Lossy(name)) {
      SkippedIsAscii(Lossy(name));
      ShownInAscii(name);
    }
    if Skipped(name) {
      SkippedIsAscii(name);
      AsciiIsText(name);
    }
  }

  lemma SkippedIsAscii(name: string)
    requires Skipped(name)
    ensures Ascii(name)
  {
  }

  /** What scanning one file contributes: a change, nothing, or an error. */
  function ChangeOf(agent: Node, primary: Node, names: Names, sha: Sha): Result<Option<FileChange>, BrokerError>
    requires agent.Dir? && primary.Dir?
  {
    var rel := RelPath(names);
    match NamesOf(rel)
    case None => Err(BadPath(rel))
    case Some(walked) =>
      match EntryAt(agent, walked)
      case Absent => Err(Disappeared(rel))
      case Blocked => Err(Disappeared(rel))
      case Refused => Err(Disappeared(rel))
      case Regular(bytes) =>
        match EntryAt(primary, walked)
        case Refused => Err(NoPreimage(rel))
        case Absent => Ok(ChangeIfDifferent(rel, NULL_HASH, sha(bytes)))
        case Blocked => Ok(ChangeIfDifferent(rel, NULL_HASH, sha(bytes)))
        case Regular(held) => Ok(ChangeIfDifferent(rel, sha(held), sha(bytes)))
  }

  function ChangeIfDifferent(rel: string, pre: string, post: string): Option<FileChange> {
    if pre != post then Some(FileChange(rel, pre, post)) else None
  }

  /** The changes that visiting `order` pushes, when no visit fails. */
  function Collect(agent: Node, primary: Node, order: seq<Names>, sha: Sha): seq<FileChange>
    requires agent.Dir? && primary.Dir?
  {
    if order == [] then []
    else
      var front := Collect(agent, primary, order[..|order| - 1], sha);
      match ChangeOf(agent, primary, order[|order| - 1], sha)
      case Ok(Some(change)) => front + [change]
      case _ => front
  }

  /** `order` visits each file a scan of `dir` reaches exactly once. */
  ghost predicate VisitsAll(dir: Node, prefix: Names, order: seq<Names>) {
    && NoDuplicates(order)
    && forall names :: names in order <==> prefix <= names && Scanned(dir, names[|prefix|..])
  }

  ghost predicate AllVisitsOk(agent: Node, primary: Node, order: seq<Names>, sha: Sha)
    requires agent.Dir? && primary.Dir?
  {
    forall names :: names in order ==> ChangeOf(agent, primary, names, sha).Ok?
  }

  lemma CollectAppend(agent: Node, primary: Node, a: seq<Names>, b: seq<Names>, sha: Sha)
    requires agent.Dir? && primary.Dir?
    ensures Collect(agent, primary, a + b, sha) == Collect(agent, primary, a, sha) + Collect(agent, primary, b, sha)
  {
    if b == [] {
      assert a + b == a;
    } else {
      assert (a + b)[..|a + b| - 1] == a + b[..|b| - 1];
      CollectAppend(agent, primary, a, b[..|b| - 1], sha);
    }
  }

  /** The files below `prefix` that a scan of `dir` reaches through the entries in `done`. */
  ghost predicate Reached(dir: Node, prefix: Names, done: set<string>, names: Names) {
    && prefix <= names
    && Scanned(dir, names[|prefix|..])
    && names[|prefix|] in done
  }

  ghost predicate VisitsExactly(dir: Node, prefix: Names, done: set<string>, order: seq<Names>) {
    && NoDuplicates(order)
    && forall names :: names in order <==> Reached(dir, prefix, done, names)
  }

  lemma ReachedThrough(dir: Node, prefix: Names, name: string, names: Names)
    requires dir.Dir? && name in dir.children
    ensures Reached(dir, prefix, {name}, names) <==>
            && !Skipped(name)
            && prefix + [name] <= names
            && var entry := dir.children[name];
               if entry.Dir? then Scanned(entry, names[|prefix| + 1..]) else entry.File? && names == prefix + [name]
  {
    var here := prefix + [name];
    if prefix <= names && |names| > |prefix| && names[|prefix|] == name {
      assert here <= names;
      var below := names[|prefix|..];
      assert below[0] == name && below[1..] == names[|prefix| + 1..];
      assert |names| == |here| ==> names == here;
      assert |below| == 1 ==> names[|prefix| + 1..] == [];
      assert Scanned(dir, below) <==>
             && !Skipped(name)
             && if |below| == 1 then dir.children[name].File? else Scanned(dir.children[name], below[1..]);
    } else {
      assert !(here <= names);
    }
  }

  /** Adding the files reached through one more entry. */
  lemma VisitsMore(dir: Node, prefix: Names, done: set<string>, name: string, order: seq<Names>, more: seq<Names>)
    requires dir.Dir? && name in dir.children && name !in done
    requires VisitsExactly(dir, prefix, done, order)
    requires VisitsExactly(dir, prefix, {name}, more)
    ensures VisitsExactly(dir, prefix, done + {name}, order + more)
  {
    forall names | names in order
      ensures names !in more
    {
    }
    NoDuplicatesConcat(order, more);
    forall names
      ensures Reached(dir, prefix, done + {name}, names) <==>
              Reached(dir, prefix, done, names) || Reached(dir, prefix, {name}, names)
    {
    }
  }

  /** What visiting one entry of a directory reaches. */
  lemma VisitsThrough(dir: Node, prefix: Names, name: string, more: seq<Names>)
    requires dir.Dir? && name in dir.children
    requires var entry := dir.children[name];
             if Skipped(name) then more == []
             else if entry.Dir? then VisitsAll(entry, prefix + [name], more)
             else if entry.File? then more == [prefix + [name]]
             else more == []
    ensures VisitsExactly(dir, prefix, {name}, more)
  {
    forall names
      ensures names in more <==> Reached(dir, prefix, {name}, names)
    {
      ReachedThrough(dir, prefix, name, names);
    }
  }

  /** The visit to one regular file. Both sides are read by the same walk. */
  method VisitFile(agent: Tree, primary: Tree, names: Names, sha: Sha)
    returns (r: Result<Option<FileChange>, BrokerError>)
    requires agent.root.Dir? && primary.root.Dir?
    ensures r == ChangeOf(agent.root, primary.root, names, sha)
  {
    var rel := RelPath(names);
    var agentEntry := agent.EntryOf(rel);
    if agentEntry.Err? {
      return Err(BadPath(rel));
    }
    if !agentEntry.value.Regular? {
      return Err(Disappeared(rel));
    }
    var post := sha(agentEntry.value.bytes);
    var primaryEntry := primary.EntryOf(rel);
    var pre := NULL_HASH;
    match primaryEntry.value {
      case Regular(bytes) => pre := sha(bytes);
      case Absent =>
      case Blocked =>
      case Refused => return Err(NoPreimage(rel));
    }
    if pre != post {
      return Ok(Some(FileChange(rel, pre, post)));
    }
    return Ok(None);
  }

  /** Scans one directory in whatever order it lists its entries, pushing onto
      `changes`. `order` names the files visited, for the specification only. */
  method ScanDirectory(agent: Tree, primary: Tree, dir: Node, prefix: Names, sha: Sha, changes: seq<FileChange>)
    returns (r: Result<seq<FileChange>, BrokerError>, ghost order: seq<Names>)
    requires agent.root.Dir? && primary.root.Dir?
    ensures r.Ok? ==>
              && VisitsAll(dir, prefix, order)
              && AllVisitsOk(agent.root, primary.root, order, sha)
              && r.value == changes + Collect(agent.root, primary.root, order, sha)
    ensures r.Err? ==>
              exists names :: prefix <= names && Scanned(dir, names[|prefix|..]) &&
                              ChangeOf(agent.root, primary.root, names, sha).Err?
    decreases dir, 1
  {
    order := [];
    if !dir.Dir? {
      return Ok(changes), [];
    }
    var found := changes;
    var todo := dir.children.Keys;
    while todo != {}
      invariant todo <= dir.children.Keys
      invariant VisitsExactly(dir, prefix, dir.children.Keys - todo, order)
      invariant AllVisitsOk(agent.root, primary.root, order, sha)
      invariant found == changes + Collect(agent.root, primary.root, order, sha)
      decreases todo
    {
      var name :| name in todo;
      ghost var done := dir.children.Keys - todo;
      todo := todo - {name};
      assert done + {name} == dir.children.Keys - todo;
      var scanned;
      ghost var more;
      scanned, more := ScanEntry(agent, primary, dir, prefix, name, sha, found);
      if scanned.Err? {
        return scanned, [];
      }
      VisitsMore(dir, prefix, done, name, order, more);
      PushedAfter(agent.root, primary.root, changes, order, more, sha);
      found := scanned.value;
      order := order + more;
    }
    assert forall names :: Reached(dir, prefix, dir.children.Keys, names) <==>
                             prefix <= names && Scanned(dir, names[|prefix|..]);
    return Ok(found), order;
  }

  /** One entry of a directory: skipped, scanned below, or visited. */
  method ScanEntry(agent: Tree, primary: Tree, dir: Node, prefix: Names, name: string, sha: Sha, changes: seq<FileChange>)
    returns (r: Result<seq<FileChange>, BrokerError>, ghost order: seq<Names>)
    requires agent.root.Dir? && primary.root.Dir?
    requires dir.Dir? && name in dir.children
    ensures r.Ok? ==>
              && VisitsExactly(dir, prefix, {name}, order)
              && AllVisitsOk(agent.root, primary.root, order, sha)
              && r.value == changes + Collect(agent.root, primary.root, order, sha)
    ensures r.Err? ==>
              exists names :: prefix <= names && Scanned(dir, names[|prefix|..]) &&
                              ChangeOf(agent.root, primary.root, names, sha).Err?
    decreases dir, 0
  {
    order := [];
    var here := prefix + [name];
    var entry := dir.children[name];
    if !Skipped(name) && entry.Dir? {
      r, order := ScanDirectory(agent, primary, entry, here, sha, changes);
      if r.Err? {
        ghost var bad :| here <= bad && Scanned(entry, bad[|here|..]) &&
                         ChangeOf(agent.root, primary.root, bad, sha).Err?;
        ReachedThrough(dir, prefix, name, bad);
        return;
      }
    } else if !Skipped(name) && entry.File? {
      order := [here];
      ReachedThrough(dir, prefix, name, here);
      var change := VisitFile(agent, primary, here, sha);
      CollectOne(agent.root, primary.root, here, sha);
      match change {
        case Err(e) => return Err(e), [];
        case Ok(None) => r := Ok(changes);
        case Ok(Some(c)) => r := Ok(changes + [c]);
      }
    } else {
      r := Ok(changes);
    }
    VisitsThrough(dir, prefix, name, order);
  }

  lemma PushedAfter(agent: Node, primary: Node, changes: seq<FileChange>, order: seq<Names>, more: seq<Names>, sha: Sha)
    requires agent.Dir? && primary.Dir?
    ensures (changes + Collect(agent, primary, order, sha)) + Collect(agent, primary, more, sha) ==
            changes + Collect(agent, primary, order + more, sha)
  {
    CollectAppend(agent, primary, order, more, sha);
  }

  lemma CollectOne(agent: Node, primary: Node, names: Names, sha: Sha)
    requires agent.Dir? && primary.Dir?
    ensures Collect(agent, primary, [names], sha) ==
            match ChangeOf(agent, primary, names, sha) case Ok(Some(change)) => [change] case _ => []
  {
    assert [names][..0] == [];
  }

  method InspectChanges(agent: Tree, primary: Tree, sha: Sha)
    returns (r: Result<seq<FileChange>, BrokerError>, ghost order: seq<Names>)
    requires agent.root.Dir? && primary.root.Dir?
    ensures r.Ok? ==> IsInspection(agent.root, primary.root, order, r.value, sha)
    ensures r.Err? ==> exists names :: Scanned(agent.root, names) && ChangeOf(agent.root, primary.root, names, sha).Err?
  {
    r, order := ScanDirectory(agent, primary, agent.root, [], sha, []);
    assert forall names: Names :: names[0..] == names;
  }

  /** `changes` is what inspecting the agent tree against the primary yields,
      the files being listed in `order`. */
  ghost predicate IsInspection(agent: Node, primary: Node, order: seq<Names>, changes: seq<FileChange>, sha: Sha) {
    && agent.Dir? && primary.Dir?
    && NoDuplicates(order)
    && (forall names :: names in order <==> Scanned(agent, names))
    && AllVisitsOk(agent, primary, order, sha)
    && changes == Collect(agent, primary, order, sha)
  }

  // ----- Validating and writing -----

  /** What validating one change finds in the primary checkout. */
  function ConflictOf(primary: Node, change: FileChange, sha: Sha): Result<Option<MergeConflict>, BrokerError>
    requires primary.Dir?
  {
    match NamesOf(change.path)
    case None => Err(BadPath(change.path))
    case Some(names) =>
      match EntryAt(primary, names)
      case Regular(bytes) => Ok(ConflictUnlessExpected(change, sha(bytes)))
      case Absent => Ok(ConflictUnlessExpected(change, NULL_HASH))
      case Blocked => Ok(Some(MergeConflict(change.path, change.preimage, NULL_HASH)))
      case Refused => Ok(Some(MergeConflict(change.path, change.preimage, "")))
  }

  function ConflictUnlessExpected(change: FileChange, current: string): Option<MergeConflict> {
    if current != change.preimage then Some(MergeConflict(change.path, change.preimage, current)) else None
  }

  /** The conflicts of a changeset in its order, or the first malformed path. */
  function Conflicts(primary: Node, changes: seq<FileChange>, sha: Sha): Result<seq<MergeConflict>, BrokerError>
    requires primary.Dir?
  {
    if changes == [] then Ok([])
    else
      match Conflicts(primary, changes[..|changes| - 1], sha)
      case Err(e) => Err(e)
      case Ok(found) =>
        match ConflictOf(primary, changes[|changes| - 1], sha)
        case Err(e) => Err(e)
        case Ok(None) => Ok(found)
        case Ok(Some(conflict)) => Ok(found + [conflict])
  }

  /** The bytes one change attests, as the agent workspace holds them. */
  function SourceOf(agent: Node, change: FileChange, sha: Sha): Result<Bytes, BrokerError>
    requires agent.Dir?
  {
    match NamesOf(change.path)
    case None => Err(BadPath(change.path))
    case Some(names) =>
      match EntryAt(agent, names)
      case Regular(bytes) => if sha(bytes) == change.postimage then Ok(bytes) else Err(Stale(change.path))
      case _ => Err(GoneFromAgent(change.path))
  }

  function Sources(agent: Node, changes: seq<FileChange>, sha: Sha): (r: Result<seq<Bytes>, BrokerError>)
    requires agent.Dir?
    ensures r.Ok? ==> |r.value| == |changes|
  {
    if changes == [] then Ok([])
    else
      match Sources(agent, changes[..|changes| - 1], sha)
      case Err(e) => Err(e)
      case Ok(found) =>
        match SourceOf(agent, changes[|changes| - 1], sha)
        case Err(e) => Err(e)
        case Ok(bytes) => Ok(found + [bytes])
  }

  /** The primary tree after a merge step, and what the step reports. */
  datatype Merge<+R> = Merge(root: Node, report: Result<R, BrokerError>)

  /** Writes the changes one after another until one is refused. */
  function WriteAll(root: Node, changes: seq<FileChange>, sources: seq<Bytes>, applied: seq<string>, sha: Sha): (m: Merge<seq<string>>)
    requires root.Dir? && |sources| == |changes|
    ensures m.root.Dir?
    decreases |changes|
  {
    if changes == [] then Merge(root, Ok(applied))
    else
      match NamesOf(changes[0].path)
      case None => Merge(root, Err(Stopped(changes[0].path, applied)))
      case Some(names) =>
        var w := WriteAt(root, names, changes[0].preimage, sources[0], sha);
        if w.ok
        then WriteAll(w.node, changes[1..], sources[1..], applied + [changes[0].path], sha)
        else Merge(w.node, Err(Stopped(changes[0].path, applied)))
  }

  /** `write_changes`: read every source, then write. */
  function WriteChangesOf(primary: Node, agent: Node, changes: seq<FileChange>, sha: Sha): (m: Merge<seq<string>>)
    requires primary.Dir? && agent.Dir?
    ensures m.root.Dir?
  {
    match Sources(agent, changes, sha)
    case Err(e) => Merge(primary, Err(e))
    case Ok(sources) => WriteAll(primary, changes, sources, [], sha)
  }

  /** `apply_changeset`: validate every preimage, then write. */
  function ApplyOf(primary: Node, agent: Node, changes: seq<FileChange>, sha: Sha): (m: Merge<MergeResult>)
    requires primary.Dir? && agent.Dir?
    ensures m.root.Dir?
  {
    match Conflicts(primary, changes, sha)
    case Err(e) => Merge(primary, Err(e))
    case Ok(conflicts) =>
      if conflicts != [] then Merge(primary, Ok(MergeResult(false, [], conflicts)))
      else
        var m := WriteChangesOf(primary, agent, changes, sha);
        match m.report
        case Err(e) => Merge(m.root, Err(e))
        case Ok(applied) => Merge(m.root, Ok(MergeResult(true, applied, [])))
  }

  method ValidatePreimages(primary: Tree, changes: seq<FileChange>, sha: Sha)
    returns (r: Result<seq<MergeConflict>, BrokerError>)
    requires primary.root.Dir?
    ensures r == Conflicts(primary.root, changes, sha)
  {
    var conflicts := [];
    for i := 0 to |changes|
      invariant Conflicts(primary.root, changes[..i], sha) == Ok(conflicts)
    {
      var change := changes[i];
      assert changes[..i + 1][..i] == changes[..i];
      var entry := primary.EntryOf(change.path);
      if entry.Err? {
        ErrorPersists(primary.root, changes, i + 1, sha);
        return Err(BadPath(change.path));
      }
      var current := NULL_HASH;
      var refused := false;
      match entry.value {
        case Regular(bytes) => current := sha(bytes);
        case Absent =>
        case Blocked => refused := true;
        case Refused => current, refused := "", true;
      }
      if !refused && current == change.preimage {
        continue;
      }
      conflicts := conflicts + [MergeConflict(change.path, change.preimage, current)];
    }
    assert changes[..|changes|] == changes;
    return Ok(conflicts);
  }

  lemma ErrorPersists(primary: Node, changes: seq<FileChange>, i: nat, sha: Sha)
    requires primary.Dir? && i <= |changes|
    requires Conflicts(primary, changes[..i], sha).Err?
    ensures Conflicts(primary, changes, sha) == Conflicts(primary, changes[..i], sha)
    decreases |changes|
  {
    if i < |changes| {
      assert changes[..|changes| - 1][..i] == changes[..i];
      ErrorPersists(primary, changes[..|changes| - 1], i, sha);
    } else {
      assert changes[..i] == changes;
    }
  }

  lemma SourceErrorPersists(agent: Node, changes: seq<FileChange>, i: nat, sha: Sha)
    requires agent.Dir? && i <= |changes|
    requires Sources(agent, changes[..i], sha).Err?
    ensures Sources(agent, changes, sha) == Sources(agent, changes[..i], sha)
    decreases |changes|
  {
    if i < |changes| {
      assert changes[..|changes| - 1][..i] == changes[..i];
      SourceErrorPersists(agent, changes[..|changes| - 1], i, sha);
    } else {
      assert changes[..i] == changes;
    }
  }

  /** Fetches what one change is to write, and refuses it when its hash is not
      the one the change names. */
  method ReadSource(agent: Tree, change: FileChange, sha: Sha) returns (r: Result<Bytes, BrokerError>)
    requires agent.root.Dir?
    ensures r == SourceOf(agent.root, change, sha)
  {
    var entry := agent.EntryOf(change.path);
    if entry.Err? {
      return Err(BadPath(change.path));
    }
    if !entry.value.Regular? {
      return Err(GoneFromAgent(change.path));
    }
    if sha(entry.value.bytes) != change.postimage {
      return Err(Stale(change.path));
    }
    return Ok(entry.value.bytes);
  }

  method WriteChanges(primary: Tree, agent: Tree, changes: seq<FileChange>, sha: Sha)
    returns (r: Result<seq<string>, BrokerError>)
    requires primary.root.Dir? && agent.root.Dir? && agent != primary
    modifies primary
    ensures Merge(primary.root, r) == WriteChangesOf(old(primary.root), agent.root, changes, sha)
  {
    var sources: seq<Bytes> := [];
    for i := 0 to |changes|
      invariant primary.root == old(primary.root)
      invariant Sources(agent.root, changes[..i], sha) == Ok(sources)
    {
      assert changes[..i + 1][..i] == changes[..i];
      var source := ReadSource(agent, changes[i], sha);
      if source.Err? {
        SourceErrorPersists(agent.root, changes, i + 1, sha);
        return Err(source.error);
      }
      sources := sources + [source.value];
    }
    assert changes[..|changes|] == changes;

    var applied := [];
    for i := 0 to |changes|
      invariant primary.root.Dir?
      invariant WriteAll(primary.root, changes[i..], sources[i..], applied, sha) ==
                WriteAll(old(primary.root), changes, sources, [], sha)
    {
      var change := changes[i];
      assert changes[i..][1..] == changes[i + 1..] && sources[i..][1..] == sources[i + 1..];
      var written := primary.Write(change.path, change.preimage, sources[i], sha);
      if written.Err? {
        return Err(Stopped(change.path, applied));
      }
      applied := applied + [change.path];
    }
    return Ok(applied);
  }

  method ApplyChangeset(primary: Tree, agent: Tree, changes: seq<FileChange>, sha: Sha)
    returns (r: Result<MergeResult, BrokerError>)
    requires primary.root.Dir? && agent.root.Dir? && agent != primary
    modifies primary
    ensures Merge(primary.root, r) == ApplyOf(old(primary.root), agent.root, changes, sha)
  {
    var conflicts := ValidatePreimages(primary, changes, sha);
    if conflicts.Err? {
      return Err(conflicts.error);
    }
    if conflicts.value != [] {
      return Ok(MergeResult(false, [], conflicts.value));
    }
    var applied := WriteChanges(primary, agent, changes, sha);
    if applied.Err? {
      return Err(applied.error);
    }
    return Ok(MergeResult(true, applied.value, []));
  }
}
