/** The requests of a page on a folder: a write or a removal compares, then does
    what it is for, and then notes it, in three steps
    (crates/tools/src/workspace_files.rs, crates/tools/src/workspace_fs.rs,
    crates/app-server/src/api.rs). */
module PageSessions {
  import opened Common
  import opened AppJournals

  const MAX_FILE_BYTES: nat := 16 * 1024 * 1024

  datatype FileError =
    | Missing
    | Refused
    | TooLarge(size: nat)
    | Changed(current: string)
    | Failed

  datatype Written = Written(preimage: string, postimage: string)

  /** A file in the folder: which file it is, and what it holds. */
  datatype FileAt = FileAt(id: nat, bytes: Bytes)

  type Files = map<string, FileAt>

  /** The folder's files, and the number the next one made will have. */
  datatype Disk = Disk(files: Files, next: nat)

  function HashOf(files: Files, path: string, sha: Sha): string {
    if path in files then sha(files[path].bytes) else NULL_HASH
  }

  function HashesOf(files: Files, sha: Sha): Hashes {
    map path | path in files :: sha(files[path].bytes)
  }

  function Contents(files: Files): map<string, Bytes> {
    map path | path in files :: files[path].bytes
  }

  /** A file too large to hash is neither replaced nor removed. */
  predicate Loadable(files: Files, path: string) {
    path in files ==> |files[path].bytes| <= MAX_FILE_BYTES
  }

  /** What a request compared, and what it will do to the very file it compared. */
  datatype Prepared =
    | ToWrite(path: string, preimage: string, target: Option<nat>, content: Bytes)
    | ToRemove(path: string, preimage: string, file: nat)
    | ToReport(command: string, directory: string, ran: Option<Ran>, notRun: Option<string>)

  function TargetOf(files: Files, path: string): Option<nat> {
    if path in files then Some(files[path].id) else None
  }

  /** A write through the handle that was compared, and its reading back by name.
      A file that was absent is made, unless one stands there now. A handle whose
      file was replaced changes nothing the folder shows, so the write passes
      only if the new file happens to hold the content. */
  function WriteThrough(disk: Disk, path: string, target: Option<nat>, content: Bytes): Option<Disk> {
    match target
    case None =>
      if path in disk.files then None
      else Some(Disk(disk.files[path := FileAt(disk.next, content)], disk.next + 1))
    case Some(id) =>
      if path !in disk.files then None
      else if disk.files[path].id == id then Some(disk.(files := disk.files[path := FileAt(id, content)]))
      else if disk.files[path].bytes == content then Some(disk)
      else None
  }

  /** A removal of the very file that was compared. */
  function RemoveThrough(disk: Disk, path: string, target: nat): Option<Disk> {
    if TargetOf(disk.files, path) == Some(target) then Some(disk.(files := disk.files - {path})) else None
  }

  /** The regular files of a folder. Whether the path itself is refused is
      decided by path resolution, and arrives as `refused`. */
  class Folder {
    var files: Files
    var next: nat
    const sha: Sha

    constructor (disk: Disk, sha: Sha)
      ensures this.files == disk.files && this.next == disk.next && this.sha == sha
    {
      this.files := disk.files;
      this.next := disk.next;
      this.sha := sha;
    }

    function State(): Disk
      reads this
    {
      Disk(files, next)
    }

    /** The first half of a write: what the file holds is compared. */
    method PrepareWrite(path: string, expected: string, content: Bytes, refused: bool)
      returns (r: Result<Prepared, FileError>)
      ensures r.Ok? <==> |content| <= MAX_FILE_BYTES && !refused && Loadable(files, path)
                         && HashOf(files, path, sha) == expected
      ensures r.Ok? ==> r.value == ToWrite(path, expected, TargetOf(files, path), content)
      ensures r.Err? ==> r.error == if |content| > MAX_FILE_BYTES then TooLarge(|content|)
                                    else if refused || !Loadable(files, path) then Refused
                                    else Changed(HashOf(files, path, sha))
    {
      if |content| > MAX_FILE_BYTES {
        return Err(TooLarge(|content|));
      }
      if refused || !Loadable(files, path) {
        return Err(Refused);
      }
      var preimage := HashOf(files, path, sha);
      if preimage != expected {
        return Err(Changed(preimage));
      }
      return Ok(ToWrite(path, preimage, TargetOf(files, path), content));
    }

    /** The second half, whatever happened to the folder in between. */
    method CommitWrite(path: string, target: Option<nat>, content: Bytes) returns (r: Result<string, FileError>)
      modifies this
      ensures match WriteThrough(old(State()), path, target, content)
              case Some(disk) => State() == disk && r == Ok(sha(content))
              case None => State() == old(State()) && r == Err(Failed)
      ensures target.None? && path in old(files) ==> files == old(files) && r.Err?
      ensures target.None? && path !in old(files) ==> files == old(files)[path := FileAt(old(next), content)] && r.Ok?
      ensures target.Some? && path in old(files) && old(files)[path].id == target.value ==>
                files == old(files)[path := FileAt(target.value, content)] && r.Ok?
      ensures target.Some? && !(path in old(files) && old(files)[path].id == target.value) ==>
                files == old(files) && (r.Ok? <==> path in files && files[path].bytes == content)
    {
      match target {
        case None =>
          if path in files {
            return Err(Failed);
          }
          files := files[path := FileAt(next, content)];
          next := next + 1;
        case Some(id) =>
          if path in files && files[path].id == id {
            files := files[path := FileAt(id, content)];
          }
      }
      if path !in files || files[path].bytes != content {
        return Err(Failed);
      }
      return Ok(sha(content));
    }

    method PrepareRemove(path: string, expected: string, refused: bool) returns (r: Result<Prepared, FileError>)
      ensures r.Ok? <==> !refused && path in files && Loadable(files, path) && HashOf(files, path, sha) == expected
      ensures r.Ok? ==> r.value == ToRemove(path, expected, files[path].id)
      ensures r.Err? ==> r.error == if refused then Refused
                                    else if path !in files then Missing
                                    else if !Loadable(files, path) then Refused
                                    else Changed(HashOf(files, path, sha))
    {
      if refused {
        return Err(Refused);
      }
      if path !in files {
        return Err(Missing);
      }
      if !Loadable(files, path) {
        return Err(Refused);
      }
      var preimage := HashOf(files, path, sha);
      if preimage != expected {
        return Err(Changed(preimage));
      }
      return Ok(ToRemove(path, preimage, files[path].id));
    }

    method CommitRemove(path: string, target: nat) returns (r: Result<(), FileError>)
      modifies this
      ensures match RemoveThrough(old(State()), path, target)
              case Some(disk) => State() == disk && r == Ok(())
              case None => State() == old(State()) && r == Err(Failed)
      ensures r.Ok? <==> path in old(files) && old(files)[path].id == target
      ensures files == if r.Ok? then old(files) - {path} else old(files)
    {
      if TargetOf(files, path) != Some(target) {
        return Err(Failed);
      }
      files := files - {path};
      return Ok(());
    }

    /** Both halves, with nothing in between. */
    method Write(path: string, expected: string, content: Bytes, refused: bool)
      returns (r: Result<Written, FileError>)
      modifies this
      ensures r.Ok? <==> |content| <= MAX_FILE_BYTES && !refused && old(Loadable(files, path))
                         && old(HashOf(files, path, sha)) == expected
      ensures r.Ok? ==> Contents(files) == Contents(old(files))[path := content] && r.value == Written(expected, sha(content))
      ensures r.Err? ==> State() == old(State())
      ensures r.Err? ==> r.error == if |content| > MAX_FILE_BYTES then TooLarge(|content|)
                                    else if refused || !Loadable(files, path) then Refused
                                    else Changed(HashOf(files, path, sha))
    {
      var prepared := PrepareWrite(path, expected, content, refused);
      if prepared.Err? {
        return Err(prepared.error);
      }
      var written := CommitWrite(path, prepared.value.target, content);
      return if written.Ok? then Ok(Written(prepared.value.preimage, written.value)) else Err(Failed);
    }

    method Remove(path: string, expected: string, refused: bool) returns (r: Result<string, FileError>)
      modifies this
      ensures r.Ok? <==> !refused && path in old(files) && old(Loadable(files, path))
                         && old(HashOf(files, path, sha)) == expected
      ensures r.Ok? ==> files == old(files) - {path} && r.value == expected
      ensures r.Err? ==> State() == old(State())
      ensures r.Err? ==> r.error == if refused then Refused
                                    else if path !in files then Missing
                                    else if !Loadable(files, path) then Refused
                                    else Changed(HashOf(files, path, sha))
    {
      var prepared := PrepareRemove(path, expected, refused);
      if prepared.Err? {
        return Err(prepared.error);
      }
      var removed := CommitRemove(path, prepared.value.file);
      return if removed.Ok? then Ok(prepared.value.preimage) else Err(Failed);
    }
  }

  datatype Request =
    | WriteFile(path: string, expected: string, content: Bytes, refused: bool)
    | RemoveFile(path: string, expected: string, refused: bool)
    | RunCommand(command: string, directory: string, ran: Option<Ran>, notRun: Option<string>)

  /** What a request has compared, when it may go on. */
  function PrepareOf(files: Files, request: Request, sha: Sha): Option<Prepared> {
    match request
    case WriteFile(path, expected, content, refused) =>
      if path == "" || |content| > MAX_FILE_BYTES || refused || !Loadable(files, path)
         || HashOf(files, path, sha) != expected then None
      else Some(ToWrite(path, expected, TargetOf(files, path), content))
    case RemoveFile(path, expected, refused) =>
      if refused || path !in files || !Loadable(files, path) || HashOf(files, path, sha) != expected
      then None
      else Some(ToRemove(path, expected, files[path].id))
    case RunCommand(command, directory, ran, notRun) => Some(ToReport(command, directory, ran, notRun))
  }

  /** The request is prepared for what it asked, on the path and over the
      content that it named. */
  predicate PreparedFor(request: Request, prepared: Prepared) {
    match request
    case WriteFile(path, expected, content, _) =>
      prepared.ToWrite? && prepared.path == path && prepared.preimage == expected && prepared.content == content
    case RemoveFile(path, expected, _) => prepared.ToRemove? && prepared.path == path && prepared.preimage == expected
    case RunCommand(command, directory, ran, notRun) => prepared == ToReport(command, directory, ran, notRun)
  }

  /** The effect says what the request asked for and what it named. */
  predicate EffectOf(request: Request, effect: Effect, sha: Sha) {
    match request
    case WriteFile(path, expected, content, _) => effect == Effect.Write(path, expected, sha(content))
    case RemoveFile(path, expected, _) => effect == Effect.Remove(path, expected)
    case RunCommand(command, directory, ran, notRun) => effect == Effect.Command(command, directory, ran, notRun)
  }

  /** What a request leaves of the folder, and the effect to be noted of it. */
  datatype Committed = Committed(disk: Disk, effect: Option<Effect>)

  function CommitOf(disk: Disk, prepared: Prepared, sha: Sha): Committed {
    match prepared
    case ToWrite(path, preimage, target, content) =>
      (match WriteThrough(disk, path, target, content)
       case Some(after) => Committed(after, Some(Effect.Write(path, preimage, sha(content))))
       case None => Committed(disk, None))
    case ToRemove(path, preimage, file) =>
      (match RemoveThrough(disk, path, file)
       case Some(after) => Committed(after, Some(Effect.Remove(path, preimage)))
       case None => Committed(disk, None))
    case ToReport(command, directory, ran, notRun) => Committed(disk, Some(Effect.Command(command, directory, ran, notRun)))
  }

  /** The first step of a request: comparing. Nothing changes. A write goes on
      exactly when the file, small enough to be read, holds what the request
      names, or is absent and the request names the all-zero hash. */
  method Prepare(folder: Folder, request: Request) returns (prepared: Option<Prepared>)
    ensures prepared == PrepareOf(folder.files, request, folder.sha)
    ensures request.WriteFile? ==>
              (prepared.Some? <==>
                && request.path != "" && !request.refused && |request.content| <= MAX_FILE_BYTES
                && if request.path in folder.files
                   then |folder.files[request.path].bytes| <= MAX_FILE_BYTES
                        && folder.sha(folder.files[request.path].bytes) == request.expected
                   else request.expected == NULL_HASH)
    ensures request.RemoveFile? ==>
              (prepared.Some? <==>
                && !request.refused && request.path in folder.files
                && |folder.files[request.path].bytes| <= MAX_FILE_BYTES
                && folder.sha(folder.files[request.path].bytes) == request.expected)
    ensures prepared.Some? ==> PreparedFor(request, prepared.value)
  {
    match request {
      case WriteFile(path, expected, content, refused) =>
        if path == "" {
          return None;
        }
        var r := folder.PrepareWrite(path, expected, content, refused);
        return if r.Ok? then Some(r.value) else None;
      case RemoveFile(path, expected, refused) =>
        var r := folder.PrepareRemove(path, expected, refused);
        return if r.Ok? then Some(r.value) else None;
      case RunCommand(command, directory, ran, notRun) =>
        return Some(ToReport(command, directory, ran, notRun));
    }
  }

  /** The second step: what the request does to the folder as it is by then. */
  method Commit(folder: Folder, prepared: Prepared) returns (effect: Option<Effect>)
    modifies folder
    ensures Committed(folder.State(), effect) == CommitOf(old(folder.State()), prepared, folder.sha)
  {
    match prepared {
      case ToWrite(path, preimage, target, content) =>
        var written := folder.CommitWrite(path, target, content);
        return if written.Ok? then Some(Effect.Write(path, preimage, written.value)) else None;
      case ToRemove(path, preimage, file) =>
        var removed := folder.CommitRemove(path, file);
        return if removed.Ok? then Some(Effect.Remove(path, preimage)) else None;
      case ToReport(command, directory, ran, notRun) =>
        return Some(Effect.Command(command, directory, ran, notRun));
    }
  }

  /** The third step: the effect is noted in the session's journal, under a
      lock of its own. */
  method Note(journal: Journal, effect: Option<Effect>)
    modifies journal
    ensures journal.effects == old(journal.effects) + if effect.Some? then [effect.value] else []
  {
    if effect.Some? {
      journal.Record(effect.value);
    }
  }

  /** The first half of a receipt: everything noted so far is taken. */
  method StartReceipt(journal: Journal) returns (effects: seq<Effect>)
    modifies journal
    ensures effects == old(journal.effects) && journal.effects == []
  {
    effects := journal.Take();
  }

  /** The second half, whatever was noted in between: a receipt that is written
      covers what was taken, and one that is not puts it back in front. */
  method FinishReceipt(journal: Journal, effects: seq<Effect>, canWrite: bool) returns (files: Option<seq<FileRecord>>)
    modifies journal
    ensures canWrite ==> files.Some? && Summarises(files.value, effects) && journal.effects == old(journal.effects)
    ensures !canWrite ==> files.None? && journal.effects == effects + old(journal.effects)
  {
    if canWrite {
      var records := FilesModified(effects);
      return Some(records);
    }
    journal.Restore(effects);
    return None;
  }

  predicate TouchedBy(prepared: Prepared, path: string) {
    !prepared.ToReport? && prepared.path == path
  }

  /** The path is as it was when the request compared it. */
  predicate Current(files: Files, prepared: Prepared, sha: Sha) {
    !prepared.ToReport? ==>
      && HashOf(files, prepared.path, sha) == prepared.preimage
      && TargetOf(files, prepared.path) == if prepared.ToWrite? then prepared.target else Some(prepared.file)
  }

  /** What a request does shows in the folder's hashes as its effect says; a
      request without an effect did nothing. */
  lemma CommitShowsInHashes(disk: Disk, prepared: Prepared, sha: Sha)
    requires NeverNull(sha)
    ensures var done := CommitOf(disk, prepared, sha);
            && (done.effect.None? ==> done.disk == disk)
            && (done.effect.Some? ==>
                  && HashesOf(done.disk.files, sha) == Done(HashesOf(disk.files, sha), done.effect.value)
                  && (!done.effect.value.Command? ==>
                        TouchedBy(prepared, done.effect.value.path) && done.effect.value.preimage == prepared.preimage))
  {
  }

  /** A request changes a file only where the very file stands that it compared,
      or none stands where it found none. */
  lemma CommitTouchesOnlyWhatItCompared(disk: Disk, prepared: Prepared, sha: Sha)
    requires CommitOf(disk, prepared, sha).disk != disk
    ensures !prepared.ToReport?
    ensures TargetOf(disk.files, prepared.path) == if prepared.ToWrite? then prepared.target else Some(prepared.file)
  {
  }

  /** A request that was prepared has the effect it asked for, or none. */
  lemma CommitDoesWhatWasAsked(disk: Disk, request: Request, prepared: Prepared, sha: Sha)
    requires PreparedFor(request, prepared)
    ensures var effect := CommitOf(disk, prepared, sha).effect;
            effect.Some? ==> EffectOf(request, effect.value, sha)
  {
  }

  lemma PrepareIsForRequest(files: Files, request: Request, sha: Sha)
    requires PrepareOf(files, request, sha).Some?
    ensures PreparedFor(request, PrepareOf(files, request, sha).value)
  {
  }

  /** A request whose path nobody touched since it compared takes effect. */
  lemma UndisturbedCommitTakesEffect(disk: Disk, prepared: Prepared, sha: Sha)
    requires Current(disk.files, prepared, sha)
    ensures CommitOf(disk, prepared, sha).effect.Some?
  {
  }

  /** What a request does stays on its path. */
  lemma CommitStaysOnPath(disk: Disk, prepared: Prepared, path: string, sha: Sha)
    requires !TouchedBy(prepared, path)
    ensures var files := CommitOf(disk, prepared, sha).disk.files;
            HashOf(files, path, sha) == HashOf(disk.files, path, sha) && TargetOf(files, path) == TargetOf(disk.files, path)
  {
  }
}
