/** What a page's session did to its folder, and the per-file summary a receipt
    makes of it (crates/app-server/src/journal.rs, crates/app-server/src/api.rs,
    crates/tools/src/workspace_files.rs). */
module AppJournals {
  import opened Common
  import Merkle

  datatype Ran = Ran(actionId: string, exitCode: int, statementDigest: string,
                     sandboxBackend: string, sandboxEnforcement: string, durationMs: nat)

  datatype Effect =
    | Write(path: string, preimage: string, postimage: string)
    | Remove(path: string, preimage: string)
    | Command(command: string, directory: string, ran: Option<Ran>, notRun: Option<string>)

  datatype FileRecord = FileRecord(path: string, preimage: string, postimage: string)

  // ----- The journal -----

  class Journal {
    var effects: seq<Effect>

    constructor ()
      ensures effects == []
    {
      effects := [];
    }

    method Record(effect: Effect)
      modifies this
      ensures effects == old(effects) + [effect]
    {
      effects := effects + [effect];
    }

    method Take() returns (taken: seq<Effect>)
      modifies this
      ensures taken == old(effects) && effects == []
    {
      taken := effects;
      effects := [];
    }

    method Restore(taken: seq<Effect>)
      modifies this
      ensures effects == taken + old(effects)
    {
      effects := taken + effects;
    }
  }

  // ----- One record per file -----

  predicate Touches(effect: Effect, path: string) {
    !effect.Command? && effect.path == path
  }

  /** What the file holds afterwards: a removed file holds nothing. */
  function PostimageOf(effect: Effect): string
    requires !effect.Command?
  {
    if effect.Write? then effect.postimage else NULL_HASH
  }

  /** Where a path is first touched, or past the end when it never is. */
  function FirstTouch(effects: seq<Effect>, path: string): (at: nat)
    ensures at <= |effects|
    ensures at < |effects| ==> Touches(effects[at], path)
    ensures forall j :: 0 <= j < at ==> !Touches(effects[j], path)
  {
    if effects == [] || Touches(effects[0], path) then 0 else 1 + FirstTouch(effects[1..], path)
  }

  /** Where a path is last touched, or -1 when it never is. */
  function LastTouch(effects: seq<Effect>, path: string): (at: int)
    ensures -1 <= at < |effects|
    ensures at >= 0 ==> Touches(effects[at], path)
    ensures forall j :: at < j < |effects| ==> !Touches(effects[j], path)
  {
    if effects == [] then -1
    else if Touches(effects[|effects| - 1], path) then |effects| - 1
    else LastTouch(effects[..|effects| - 1], path)
  }

  lemma {:induction false} FirstTouchGrows(effects: seq<Effect>, next: Effect, path: string)
    ensures FirstTouch(effects + [next], path)
         == if FirstTouch(effects, path) < |effects| then FirstTouch(effects, path)
            else if Touches(next, path) then |effects| else |effects| + 1
  {
    if effects == [] {
    } else {
      assert (effects + [next])[1..] == effects[1..] + [next];
      FirstTouchGrows(effects[1..], next, path);
    }
  }

  lemma LastTouchGrows(effects: seq<Effect>, next: Effect, path: string)
    ensures LastTouch(effects + [next], path)
         == if Touches(next, path) then |effects| else LastTouch(effects, path)
  {
    assert (effects + [next])[..|effects|] == effects;
  }

  /** A record holds a file's first preimage and its last postimage. */
  predicate Sums(file: FileRecord, effects: seq<Effect>) {
    var first, last := FirstTouch(effects, file.path), LastTouch(effects, file.path);
    && first < |effects| && last >= 0
    && file.preimage == effects[first].preimage
    && file.postimage == PostimageOf(effects[last])
  }

  predicate Recorded(files: seq<FileRecord>, path: string) {
    exists k :: 0 <= k < |files| && files[k].path == path
  }

  /** Each touched file has one record; records come in the order of first
      touches. */
  ghost predicate Summarises(files: seq<FileRecord>, effects: seq<Effect>) {
    && (forall k :: 0 <= k < |files| ==> Sums(files[k], effects))
    && (forall k, l :: 0 <= k < l < |files| ==>
          FirstTouch(effects, files[k].path) < FirstTouch(effects, files[l].path))
    && (forall path :: FirstTouch(effects, path) < |effects| ==> Recorded(files, path))
  }

  /** An effect on one path leaves the records of the others true. */
  lemma OtherRecordStillSums(file: FileRecord, effects: seq<Effect>, next: Effect)
    requires Sums(file, effects) && !Touches(next, file.path)
    ensures Sums(file, effects + [next])
    ensures FirstTouch(effects + [next], file.path) == FirstTouch(effects, file.path)
  {
    FirstTouchGrows(effects, next, file.path);
    LastTouchGrows(effects, next, file.path);
  }

  lemma EveryTouchStillRecorded(files: seq<FileRecord>, more: seq<FileRecord>, effects: seq<Effect>, next: Effect)
    requires Summarises(files, effects) && |files| <= |more|
    requires forall k :: 0 <= k < |files| ==> more[k].path == files[k].path
    requires next.Command? || Recorded(more, next.path)
    ensures forall path :: FirstTouch(effects + [next], path) < |effects| + 1 ==> Recorded(more, path)
  {
    forall path | FirstTouch(effects + [next], path) < |effects| + 1
      ensures Recorded(more, path)
    {
      FirstTouchGrows(effects, next, path);
      if !Touches(next, path) {
        var k :| 0 <= k < |files| && files[k].path == path;
        assert more[k].path == path;
      }
    }
  }

  /** An effect on a file that has a record moves that record's postimage. */
  lemma LaterTouchKeepsSummary(files: seq<FileRecord>, effects: seq<Effect>, next: Effect, k: nat)
    requires Summarises(files, effects) && !next.Command?
    requires k < |files| && files[k].path == next.path
    ensures Summarises(files[k := files[k].(postimage := PostimageOf(next))], effects + [next])
  {
    var all := effects + [next];
    var moved := files[k := files[k].(postimage := PostimageOf(next))];
    forall l | 0 <= l < |moved|
      ensures moved[l].path == files[l].path && Sums(moved[l], all)
      ensures FirstTouch(all, files[l].path) == FirstTouch(effects, files[l].path)
    {
      assert Sums(files[l], effects);
      if l == k {
        FirstTouchGrows(effects, next, next.path);
        LastTouchGrows(effects, next, next.path);
      } else {
        assert FirstTouch(effects, files[l].path) != FirstTouch(effects, files[k].path);
        OtherRecordStillSums(files[l], effects, next);
      }
    }
    assert moved[k].path == next.path;
    EveryTouchStillRecorded(files, moved, effects, next);
  }

  /** A first touch adds a record at the end. */
  lemma FirstTouchAddsRecord(files: seq<FileRecord>, effects: seq<Effect>, next: Effect)
    requires Summarises(files, effects) && !next.Command? && !Recorded(files, next.path)
    ensures Summarises(files + [FileRecord(next.path, next.preimage, PostimageOf(next))], effects + [next])
  {
    var all := effects + [next];
    var file := FileRecord(next.path, next.preimage, PostimageOf(next));
    var more := files + [file];
    assert FirstTouch(effects, next.path) == |effects|;
    FirstTouchSums(effects, next);
    forall l | 0 <= l < |files|
      ensures more[l] == files[l] && Sums(files[l], all)
      ensures FirstTouch(all, files[l].path) == FirstTouch(effects, files[l].path)
    {
      assert files[l].path != next.path;
      OtherRecordStillSums(files[l], effects, next);
    }
    assert more[|files|] == file;
    EveryTouchStillRecorded(files, more, effects, next);
  }

  lemma FirstTouchSums(effects: seq<Effect>, next: Effect)
    requires !next.Command? && FirstTouch(effects, next.path) == |effects|
    ensures Sums(FileRecord(next.path, next.preimage, PostimageOf(next)), effects + [next])
    ensures FirstTouch(effects + [next], next.path) == |effects|
  {
    FirstTouchGrows(effects, next, next.path);
    LastTouchGrows(effects, next, next.path);
  }

  lemma CommandKeepsSummary(files: seq<FileRecord>, effects: seq<Effect>, next: Effect)
    requires Summarises(files, effects) && next.Command?
    ensures Summarises(files, effects + [next])
  {
    forall path
      ensures FirstTouch(effects, path) < |effects| ==>
                FirstTouch(effects + [next], path) == FirstTouch(effects, path)
      ensures FirstTouch(effects, path) == |effects| ==>
                FirstTouch(effects + [next], path) == |effects| + 1
      ensures LastTouch(effects + [next], path) == LastTouch(effects, path)
    {
      FirstTouchGrows(effects, next, path);
      LastTouchGrows(effects, next, path);
    }
    forall k | 0 <= k < |files|
      ensures Sums(files[k], effects + [next])
    {
      assert Sums(files[k], effects);
    }
  }

  method FindRecord(files: seq<FileRecord>, path: string) returns (found: Option<nat>)
    ensures found.Some? ==> found.value < |files| && files[found.value].path == path
    ensures found.None? ==> !Recorded(files, path)
  {
    for k := 0 to |files|
      invariant forall l :: 0 <= l < k ==> files[l].path != path
    {
      if files[k].path == path {
        return Some(k);
      }
    }
    return None;
  }

  method FilesModified(effects: seq<Effect>) returns (files: seq<FileRecord>)
    ensures Summarises(files, effects)
  {
    files := [];
    for i := 0 to |effects|
      invariant Summarises(files, effects[..i])
    {
      var effect := effects[i];
      assert effects[..i + 1] == effects[..i] + [effect];
      if effect.Command? {
        CommandKeepsSummary(files, effects[..i], effect);
        continue;
      }
      var found := FindRecord(files, effect.path);
      match found {
        case Some(k) =>
          LaterTouchKeepsSummary(files, effects[..i], effect, k);
          files := files[k := files[k].(postimage := PostimageOf(effect))];
        case None =>
          FirstTouchAddsRecord(files, effects[..i], effect);
          files := files + [FileRecord(effect.path, effect.preimage, PostimageOf(effect))];
      }
    }
    assert effects[..|effects|] == effects;
  }

  // ----- What records mean for a folder -----

  /** The hash of every file in a folder, by path. */
  type Hashes = map<string, string>

  function HashAt(folder: Hashes, path: string): string {
    if path in folder then folder[path] else NULL_HASH
  }

  /** The folder with one path holding what hashes to `hash`. */
  function Put(folder: Hashes, path: string, hash: string): Hashes {
    if hash == NULL_HASH then folder - {path} else folder[path := hash]
  }

  function Done(folder: Hashes, effect: Effect): Hashes {
    if effect.Command? then folder else Put(folder, effect.path, PostimageOf(effect))
  }

  function DoneAll(folder: Hashes, effects: seq<Effect>): Hashes {
    if effects == [] then folder
    else Done(DoneAll(folder, effects[..|effects| - 1]), effects[|effects| - 1])
  }

  ghost predicate Proper(folder: Hashes) {
    forall path :: path in folder ==> folder[path] != NULL_HASH
  }

  /** Each effect names as its preimage what the folder held just before it. */
  ghost predicate Consistent(before: Hashes, effects: seq<Effect>) {
    forall i :: 0 <= i < |effects| && !effects[i].Command? ==>
      effects[i].preimage == HashAt(DoneAll(before, effects[..i]), effects[i].path)
  }

  /** The folder after every record's postimage is put in place. */
  function Applied(folder: Hashes, files: seq<FileRecord>): Hashes {
    if files == [] then folder
    else
      var last := files[|files| - 1];
      Put(Applied(folder, files[..|files| - 1]), last.path, last.postimage)
  }

  /** The same records read backwards, as an undo applies them. */
  function Backwards(files: seq<FileRecord>): seq<FileRecord> {
    seq(|files|, k requires 0 <= k < |files| => FileRecord(files[k].path, files[k].postimage, files[k].preimage))
  }

  lemma SameHashesSameFolder(a: Hashes, b: Hashes)
    requires Proper(a) && Proper(b)
    requires forall path :: HashAt(a, path) == HashAt(b, path)
    ensures a == b
  {
    forall path
      ensures path in a <==> path in b
      ensures path in a ==> a[path] == b[path]
    {
      assert HashAt(a, path) == HashAt(b, path);
    }
  }

  lemma {:induction false} DoneAllAt(folder: Hashes, effects: seq<Effect>, path: string)
    ensures HashAt(DoneAll(folder, effects), path)
         == if LastTouch(effects, path) >= 0 then PostimageOf(effects[LastTouch(effects, path)])
            else HashAt(folder, path)
    decreases |effects|
  {
    if effects == [] {
    } else {
      DoneAllAt(folder, effects[..|effects| - 1], path);
    }
  }

  lemma {:induction false} DoneAllIsProper(folder: Hashes, effects: seq<Effect>)
    requires Proper(folder)
    ensures Proper(DoneAll(folder, effects))
    decreases |effects|
  {
    if effects == [] {
    } else {
      DoneAllIsProper(folder, effects[..|effects| - 1]);
    }
  }

  ghost predicate OnePerPath(files: seq<FileRecord>) {
    forall k, l :: 0 <= k < l < |files| ==> files[k].path != files[l].path
  }

  lemma {:induction false} AppliedIsProper(folder: Hashes, files: seq<FileRecord>)
    requires Proper(folder)
    ensures Proper(Applied(folder, files))
    decreases |files|
  {
    if files == [] {
    } else {
      AppliedIsProper(folder, files[..|files| - 1]);
    }
  }

  lemma {:induction false} AppliedElsewhere(folder: Hashes, files: seq<FileRecord>, path: string)
    requires !Recorded(files, path)
    ensures HashAt(Applied(folder, files), path) == HashAt(folder, path)
    decreases |files|
  {
    if files == [] {
    } else {
      var n := |files| - 1;
      assert forall k :: 0 <= k < n ==> files[..n][k] == files[k];
      AppliedElsewhere(folder, files[..n], path);
    }
  }

  lemma {:induction false} AppliedAt(folder: Hashes, files: seq<FileRecord>, k: nat)
    requires OnePerPath(files) && k < |files|
    ensures HashAt(Applied(folder, files), files[k].path) == files[k].postimage
    decreases |files|
  {
    var n := |files| - 1;
    if k == n {
    } else {
      AppliedAt(folder, files[..n], k);
    }
  }

  lemma SummaryHasOnePerPath(files: seq<FileRecord>, effects: seq<Effect>)
    requires Summarises(files, effects)
    ensures OnePerPath(files)
  {
    forall k, l | 0 <= k < l < |files|
      ensures files[k].path != files[l].path
    {
      assert FirstTouch(effects, files[k].path) < FirstTouch(effects, files[l].path);
    }
  }

  lemma TouchedBothWays(effects: seq<Effect>, path: string)
    ensures FirstTouch(effects, path) < |effects| <==> LastTouch(effects, path) >= 0
  {
  }

  /** The first effect on a path names what the folder held to begin with. */
  lemma FirstPreimageIsBefore(before: Hashes, effects: seq<Effect>, path: string)
    requires Consistent(before, effects) && FirstTouch(effects, path) < |effects|
    ensures effects[FirstTouch(effects, path)].preimage == HashAt(before, path)
  {
    var first := FirstTouch(effects, path);
    DoneAllAt(before, effects[..first], path);
    assert LastTouch(effects[..first], path) < 0;
  }

  lemma RecordsNameBothSides(before: Hashes, effects: seq<Effect>, files: seq<FileRecord>, k: nat)
    requires Consistent(before, effects) && Summarises(files, effects) && k < |files|
    ensures files[k].preimage == HashAt(before, files[k].path)
    ensures files[k].postimage == HashAt(DoneAll(before, effects), files[k].path)
  {
    assert Sums(files[k], effects);
    FirstPreimageIsBefore(before, effects, files[k].path);
    DoneAllAt(before, effects, files[k].path);
  }

  lemma UnrecordedIsUnchanged(before: Hashes, effects: seq<Effect>, files: seq<FileRecord>, path: string)
    requires Summarises(files, effects) && !Recorded(files, path)
    ensures HashAt(DoneAll(before, effects), path) == HashAt(before, path)
  {
    TouchedBothWays(effects, path);
    DoneAllAt(before, effects, path);
  }

  /** Records that name what two folders hold, and name every path where the
      two differ, turn one folder into the other. */
  lemma ApplyingTurnsInto(a: Hashes, b: Hashes, files: seq<FileRecord>)
    requires Proper(a) && Proper(b) && OnePerPath(files)
    requires forall k :: 0 <= k < |files| ==> files[k].postimage == HashAt(b, files[k].path)
    requires forall path :: !Recorded(files, path) ==> HashAt(a, path) == HashAt(b, path)
    ensures Applied(a, files) == b
  {
    AppliedIsProper(a, files);
    forall path
      ensures HashAt(Applied(a, files), path) == HashAt(b, path)
    {
      if Recorded(files, path) {
        var k: nat :| k < |files| && files[k].path == path;
        AppliedAt(a, files, k);
      } else {
        AppliedElsewhere(a, files, path);
      }
    }
    SameHashesSameFolder(Applied(a, files), b);
  }

  /** A receipt's records sum up the session: put in place they turn the folder
      before into the folder after, and read backwards they undo it. */
  lemma ReceiptSumsUpSession(before: Hashes, effects: seq<Effect>, files: seq<FileRecord>)
    requires Proper(before) && Consistent(before, effects) && Summarises(files, effects)
    ensures Applied(before, files) == DoneAll(before, effects)
    ensures Applied(DoneAll(before, effects), Backwards(files)) == before
  {
    var after := DoneAll(before, effects);
    SummaryHasOnePerPath(files, effects);
    DoneAllIsProper(before, effects);
    forall k | 0 <= k < |files|
      ensures files[k].preimage == HashAt(before, files[k].path)
      ensures files[k].postimage == HashAt(after, files[k].path)
    {
      RecordsNameBothSides(before, effects, files, k);
    }
    forall path | !Recorded(files, path)
      ensures HashAt(before, path) == HashAt(after, path)
    {
      UnrecordedIsUnchanged(before, effects, files, path);
    }
    ApplyingTurnsInto(before, after, files);
    BackwardsRecordsTheSame(files);
    ApplyingTurnsInto(after, before, Backwards(files));
  }

  lemma BackwardsRecordsTheSame(files: seq<FileRecord>)
    requires OnePerPath(files)
    ensures OnePerPath(Backwards(files))
    ensures forall path :: Recorded(Backwards(files), path) <==> Recorded(files, path)
  {
    forall path | Recorded(files, path)
      ensures Recorded(Backwards(files), path)
    {
      var k: nat :| k < |files| && files[k].path == path;
      assert Backwards(files)[k].path == path;
    }
  }

  // ----- What the receipt's root says of the effects -----

  /** The texts that are hashed, each effect serialized on its own. */
  function Bodies(effects: seq<Effect>, encode: Effect -> string): seq<string> {
    seq(|effects|, i requires 0 <= i < |effects| => encode(effects[i]))
  }

  /** No effect of one list is serialized like a different one of the other. */
  predicate TellsApart(encode: Effect -> string, a: seq<Effect>, b: seq<Effect>) {
    forall i, j :: 0 <= i < |a| && 0 <= j < |b| && encode(a[i]) == encode(b[j]) ==> a[i] == b[j]
  }

  function ReceiptRoot(effects: seq<Effect>, encode: Effect -> string, raw: Merkle.RawSha): string
    requires forall x :: Merkle.AreBytes(raw(x))
  {
    Merkle.RootText(Merkle.ChainHashes(Bodies(effects, encode), raw), raw)
  }

  /** Equally many effects with one root are the same effects in the same order,
      barring a collision among what is hashed for the two roots. */
  lemma RootCommitsToEffects(a: seq<Effect>, b: seq<Effect>, encode: Effect -> string, raw: Merkle.RawSha, inputs: set<Bytes>)
    requires TellsApart(encode, a, b) && Merkle.DigestBytes(raw) && |a| == |b| && CollisionFreeOn(raw, inputs)
    requires Merkle.HashedForRoot(Bodies(a, encode), raw) <= inputs && Merkle.HashedForRoot(Bodies(b, encode), raw) <= inputs
    requires ReceiptRoot(a, encode, raw) == ReceiptRoot(b, encode, raw)
    ensures a == b
  {
    Merkle.ReceiptRootCommitsToBodies(Bodies(a, encode), Bodies(b, encode), raw, inputs);
    forall i | 0 <= i < |a|
      ensures a[i] == b[i]
    {
      assert Bodies(a, encode)[i] == encode(a[i]) && Bodies(b, encode)[i] == encode(b[i]);
    }
  }

  /** The loop that chains and roots a session's effects. */
  method ComputeReceiptRoot(effects: seq<Effect>, encode: Effect -> string, raw: Merkle.RawSha) returns (root: string)
    requires forall x :: Merkle.AreBytes(raw(x))
    ensures root == ReceiptRoot(effects, encode, raw)
  {
    var hashes := Merkle.ChainEffects(Bodies(effects, encode), raw);
    root := Merkle.ComputeEventMerkleRoot(hashes, raw);
  }
}
