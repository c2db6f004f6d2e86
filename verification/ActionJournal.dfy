/** The runner's durable action journal (crates/vitna-runner/src/journal.rs): an
    append-only file of entries, and the latest entry of each action in memory. */
module ActionJournals {
  import opened Common

  datatype ActionState = Prepared | Started | Finished | Acknowledged | NeedsReconciliation | Refused

  datatype Entry = Entry(
    actionId: string,
    argumentDigest: string,
    state: ActionState,
    preparedAtMs: nat,
    startedAtMs: Option<nat>,
    finishedAtMs: Option<nat>,
    exitCode: Option<int>,
    stdoutDigest: Option<string>,
    stderrDigest: Option<string>,
    sandboxBackend: Option<string>,
    sandboxEnforcement: Option<string>,
    termination: Option<string>,
    teardown: Option<string>)

  /** A line of the file: an entry, nothing but blanks, or something no entry
      can be read from. */
  datatype Line = Record(entry: Entry) | Blank | Unreadable(text: string)

  type Entries = map<string, Entry>

  /** What opening a file with these lines yields. */
  function Rebuild(lines: seq<Line>): Entries {
    if lines == [] then map[]
    else
      var before := Rebuild(lines[..|lines| - 1]);
      match lines[|lines| - 1]
      case Record(entry) => before[entry.actionId := entry]
      case _ => before
  }

  // ----- The entries each step writes -----

  function PreparedEntry(id: string, digest: string, now: nat): Entry {
    Entry(id, digest, Prepared, now, None, None, None, None, None, None, None, None, None)
  }

  function WithStart(e: Entry, now: nat): Entry {
    e.(state := Started, startedAtMs := Some(now))
  }

  function WithSandbox(e: Entry, backend: string, enforcement: string): Entry {
    e.(sandboxBackend := Some(backend), sandboxEnforcement := Some(enforcement))
  }

  function WithRefusal(e: Entry, reason: string, now: nat): Entry {
    e.(state := Refused, finishedAtMs := Some(now), termination := Some(reason))
  }

  function WithInterruption(e: Entry, reason: string, teardown: string, now: nat): Entry {
    e.(state := NeedsReconciliation, finishedAtMs := Some(now), termination := Some(reason), teardown := Some(teardown))
  }

  function WithFinish(e: Entry, exitCode: int, stdout: string, stderr: string, now: nat): Entry {
    e.(state := Finished, finishedAtMs := Some(now), exitCode := Some(exitCode),
       stdoutDigest := Some(stdout), stderrDigest := Some(stderr))
  }

  function WithAcknowledgement(e: Entry): Entry {
    e.(state := Acknowledged)
  }

  function WithReconciliation(e: Entry): Entry {
    e.(state := NeedsReconciliation)
  }

  predicate Unsettled(e: Entry) {
    e.state == Started || e.state == Prepared
  }

  // ----- The journal object -----

  class ActionJournal {
    /** The file's lines. */
    var lines: seq<Line>
    var entries: Entries

    ghost predicate Valid()
      reads this
    {
      && entries == Rebuild(lines)
      && forall id :: id in entries ==> entries[id].actionId == id
    }

    /** Reads the file line by line, keeping the last entry of each action. */
    constructor Open(file: seq<Line>)
      ensures Valid() && lines == file
    {
      lines := file;
      var found: Entries := map[];
      for i := 0 to |file|
        invariant found == Rebuild(file[..i])
        invariant forall id :: id in found ==> found[id].actionId == id
      {
        assert file[..i + 1][..i] == file[..i];
        match file[i] {
          case Record(entry) => found := found[entry.actionId := entry];
          case _ =>
        }
      }
      assert file[..|file|] == file;
      entries := found;
    }

    method AppendEntry(entry: Entry)
      requires Valid()
      modifies this
      ensures Valid()
      ensures lines == old(lines) + [Record(entry)] && entries == old(entries)[entry.actionId := entry]
    {
      lines := lines + [Record(entry)];
      assert lines[..|lines| - 1] == old(lines);
      entries := entries[entry.actionId := entry];
    }

    method RecordPrepared(id: string, digest: string, now: nat)
      requires Valid()
      modifies this
      ensures Valid()
      ensures lines == old(lines) + [Record(PreparedEntry(id, digest, now))]
      ensures entries == old(entries)[id := PreparedEntry(id, digest, now)]
    {
      AppendEntry(PreparedEntry(id, digest, now));
    }

    /** Every other record copies the action's latest entry and changes part of
        it; an action never prepared is not found. */
    method Update(id: string, change: Entry -> Entry) returns (found: bool)
      requires Valid() && forall e: Entry :: change(e).actionId == e.actionId
      modifies this
      ensures Valid() && found == (id in old(entries))
      ensures found ==> lines == old(lines) + [Record(change(old(entries)[id]))] &&
                        entries == old(entries)[id := change(old(entries)[id])]
      ensures !found ==> lines == old(lines) && entries == old(entries)
    {
      if id !in entries {
        return false;
      }
      var entry := change(entries[id]);
      AppendEntry(entry);
      return true;
    }

    method RecordStarted(id: string, now: nat) returns (found: bool)
      requires Valid()
      modifies this
      ensures Valid() && found == (id in old(entries))
      ensures found ==> lines == old(lines) + [Record(WithStart(old(entries)[id], now))] &&
                        entries == old(entries)[id := WithStart(old(entries)[id], now)]
      ensures !found ==> lines == old(lines) && entries == old(entries)
    {
      found := Update(id, e => WithStart(e, now));
    }

    method RecordSandbox(id: string, backend: string, enforcement: string) returns (found: bool)
      requires Valid()
      modifies this
      ensures Valid() && found == (id in old(entries))
      ensures found ==> lines == old(lines) + [Record(WithSandbox(old(entries)[id], backend, enforcement))] &&
                        entries == old(entries)[id := WithSandbox(old(entries)[id], backend, enforcement)]
      ensures !found ==> lines == old(lines) && entries == old(entries)
    {
      found := Update(id, e => WithSandbox(e, backend, enforcement));
    }

    method RecordRefused(id: string, reason: string, now: nat) returns (found: bool)
      requires Valid()
      modifies this
      ensures Valid() && found == (id in old(entries))
      ensures found ==> lines == old(lines) + [Record(WithRefusal(old(entries)[id], reason, now))] &&
                        entries == old(entries)[id := WithRefusal(old(entries)[id], reason, now)]
      ensures !found ==> lines == old(lines) && entries == old(entries)
    {
      found := Update(id, e => WithRefusal(e, reason, now));
    }

    method RecordInterrupted(id: string, reason: string, teardown: string, now: nat) returns (found: bool)
      requires Valid()
      modifies this
      ensures Valid() && found == (id in old(entries))
      ensures found ==> lines == old(lines) + [Record(WithInterruption(old(entries)[id], reason, teardown, now))] &&
                        entries == old(entries)[id := WithInterruption(old(entries)[id], reason, teardown, now)]
      ensures !found ==> lines == old(lines) && entries == old(entries)
    {
      found := Update(id, e => WithInterruption(e, reason, teardown, now));
    }

    method RecordFinished(id: string, exitCode: int, stdout: string, stderr: string, now: nat) returns (found: bool)
      requires Valid()
      modifies this
      ensures Valid() && found == (id in old(entries))
      ensures found ==> lines == old(lines) + [Record(WithFinish(old(entries)[id], exitCode, stdout, stderr, now))] &&
                        entries == old(entries)[id := WithFinish(old(entries)[id], exitCode, stdout, stderr, now)]
      ensures !found ==> lines == old(lines) && entries == old(entries)
    {
      found := Update(id, e => WithFinish(e, exitCode, stdout, stderr, now));
    }

    method RecordAcknowledged(id: string) returns (found: bool)
      requires Valid()
      modifies this
      ensures Valid() && found == (id in old(entries))
      ensures found ==> lines == old(lines) + [Record(WithAcknowledgement(old(entries)[id]))] &&
                        entries == old(entries)[id := WithAcknowledgement(old(entries)[id])]
      ensures !found ==> lines == old(lines) && entries == old(entries)
    {
      found := Update(id, e => WithAcknowledgement(e));
    }

    /** Marks what a crash left prepared or started, visiting the entries in any
        order. Afterwards none is left, so doing it again finds nothing. */
    method ReconcileCrashedActions() returns (reconciled: seq<string>)
      requires Valid()
      modifies this
      ensures Valid()
      ensures NoDuplicates(reconciled)
      ensures forall id :: id in reconciled <==> id in old(entries) && Unsettled(old(entries)[id])
      ensures entries == Reconciled(old(entries))
      ensures lines == old(lines) + ReconciledLines(reconciled, old(entries))
      ensures forall id :: id in entries ==> !Unsettled(entries[id])
    {
      reconciled := [];
      ghost var before := entries;
      var todo := set id | id in entries && Unsettled(entries[id]);
      var unacknowledged := entries;
      while todo != {}
        invariant Valid()
        invariant todo <= unacknowledged.Keys && unacknowledged == before
        invariant NoDuplicates(reconciled)
        invariant forall id :: id in reconciled <==> id in before && Unsettled(before[id]) && id !in todo
        invariant forall id :: id in todo ==> id in before && Unsettled(before[id])
        invariant entries == PartlyReconciled(before, reconciled)
        invariant lines == old(lines) + ReconciledLines(reconciled, before)
        decreases todo
      {
        var id :| id in todo;
        todo := todo - {id};
        AppendEntry(WithReconciliation(unacknowledged[id]));
        OneMoreReconciled(before, reconciled, id);
        reconciled := reconciled + [id];
      }
    }
  }

  /** The lines that reconciling these actions appends. */
  function ReconciledLines(ids: seq<string>, entries: Entries): seq<Line>
    requires forall id :: id in ids ==> id in entries
  {
    if ids == [] then []
    else
      ReconciledLines(ids[..|ids| - 1], entries) + [Record(WithReconciliation(entries[ids[|ids| - 1]]))]
  }

  function PartlyReconciled(entries: Entries, ids: seq<string>): Entries {
    map id | id in entries :: if id in ids then WithReconciliation(entries[id]) else entries[id]
  }

  lemma OneMoreReconciled(entries: Entries, ids: seq<string>, id: string)
    requires id in entries && entries[id].actionId == id && forall x :: x in ids ==> x in entries
    ensures PartlyReconciled(entries, ids + [id]) == PartlyReconciled(entries, ids)[id := WithReconciliation(entries[id])]
    ensures ReconciledLines(ids + [id], entries) == ReconciledLines(ids, entries) + [Record(WithReconciliation(entries[id]))]
  {
    assert (ids + [id])[..|ids|] == ids;
  }

  function Reconciled(entries: Entries): Entries {
    map id | id in entries :: if Unsettled(entries[id]) then WithReconciliation(entries[id]) else entries[id]
  }

  /** Reconciling touches only what a crash left open, keeps everything else,
      and a second time changes nothing. */
  lemma ReconcilingSettlesOnce(entries: Entries)
    ensures var after := Reconciled(entries);
            && after.Keys == entries.Keys
            && (forall id :: id in after ==> !Unsettled(after[id]))
            && (forall id :: id in entries && !Unsettled(entries[id]) ==> after[id] == entries[id])
            && (forall id :: id in entries && Unsettled(entries[id]) ==>
                  after[id] == entries[id].(state := NeedsReconciliation))
            && Reconciled(after) == after
  {
  }
}
