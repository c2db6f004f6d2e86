/** The append-only event store and the queries a session stream makes of it
    (crates/store/src/lib.rs, crates/daemon/src/ipc.rs, crates/daemon/src/server.rs). */
module EventStores {
  import opened Common

  datatype EventRecord = EventRecord(
    eventId: string,
    runId: string,
    sequence: nat,
    typeUrl: string,
    timestampMs: nat,
    payload: Bytes,
    prevEventHash: string,
    eventHash: string)

  /** The largest integer the database can hold, and the largest a query can name. */
  const I64_MAX: nat := 0x7fff_ffff_ffff_ffff

  const FIRST_EVENT_SEQUENCE: nat := 1

  // ----- What is hashed -----

  function Digit(d: nat): char
    requires d < 10
  {
    ['0', '1', '2', '3', '4', '5', '6', '7', '8', '9'][d]
  }

  function Decimal(n: nat): string {
    if n < 10 then [Digit(n)] else Decimal(n / 10) + [Digit(n % 10)]
  }

  /** The text whose hash chains an event to the one before it. */
  function HashText(prev: string, runId: string, sequence: nat, typeUrl: string, timestampMs: nat, payloadHash: string): string {
    prev + ":" + runId + ":" + Decimal(sequence) + ":" + typeUrl + ":" + Decimal(timestampMs) + ":" + payloadHash
  }

  function CalculateHash(e: EventRecord, sha: Sha): string {
    sha(HashText(e.prevEventHash, e.runId, e.sequence, e.typeUrl, e.timestampMs, sha(e.payload)))
  }

  predicate VerifyIntegrity(e: EventRecord, sha: Sha) {
    e.eventHash == CalculateHash(e, sha)
  }

  function NewRecord(eventId: string, runId: string, sequence: nat, typeUrl: string, timestampMs: nat,
                     payload: Bytes, prev: string, sha: Sha): (e: EventRecord)
    ensures VerifyIntegrity(e, sha)
  {
    var unsealed := EventRecord(eventId, runId, sequence, typeUrl, timestampMs, payload, prev, "");
    unsealed.(eventHash := CalculateHash(unsealed, sha))
  }

  // ----- Queries, over the rows in the order they were inserted -----

  /** The rows of one run numbered from `since` on. */
  function Select(log: seq<EventRecord>, run: string, since: nat): seq<EventRecord> {
    if log == [] then []
    else
      var last := log[|log| - 1];
      Select(log[..|log| - 1], run, since) + if last.runId == run && last.sequence >= since then [last] else []
  }

  /** Puts `e` after everything numbered at most like it: the step of a stable sort. */
  function InsertBySequence(sorted: seq<EventRecord>, e: EventRecord): seq<EventRecord> {
    if sorted == [] || sorted[|sorted| - 1].sequence <= e.sequence then sorted + [e]
    else InsertBySequence(sorted[..|sorted| - 1], e) + [sorted[|sorted| - 1]]
  }

  function SortBySequence(events: seq<EventRecord>): seq<EventRecord> {
    if events == [] then []
    else InsertBySequence(SortBySequence(events[..|events| - 1]), events[|events| - 1])
  }

  /** Events of a run from `since` on, in order. */
  function GetEvents(log: seq<EventRecord>, run: string, since: nat): seq<EventRecord> {
    SortBySequence(Select(log, run, since))
  }

  /** Events of a run strictly after `after`, in order. A number the database
      cannot represent is above every event. */
  function EventsAfter(log: seq<EventRecord>, run: string, after: nat): seq<EventRecord> {
    if after >= I64_MAX then [] else GetEvents(log, run, after + 1)
  }

  /** Numbered `base` + 1, `base` + 2, ... with no gap and no repeat. */
  ghost predicate NumberedFrom(events: seq<EventRecord>, base: nat) {
    forall i :: 0 <= i < |events| ==> events[i].sequence == base + i + 1
  }

  lemma InsertAtEnd(sorted: seq<EventRecord>, e: EventRecord)
    requires sorted != [] ==> sorted[|sorted| - 1].sequence <= e.sequence
    ensures InsertBySequence(sorted, e) == sorted + [e]
  {
  }

  lemma {:induction false} SortedStays(events: seq<EventRecord>, base: nat)
    requires NumberedFrom(events, base)
    ensures SortBySequence(events) == events
    decreases |events|
  {
    if events == [] {
    } else {
      var front, last := events[..|events| - 1], events[|events| - 1];
      SortedStays(front, base);
      InsertAtEnd(front, last);
      SplitLast(events);
    }
  }

  /** In order of their numbers. */
  ghost predicate Ordered(events: seq<EventRecord>) {
    forall i, j :: 0 <= i < j < |events| ==> events[i].sequence <= events[j].sequence
  }

  lemma {:induction false} InsertKeepsMembers(sorted: seq<EventRecord>, e: EventRecord)
    ensures multiset(InsertBySequence(sorted, e)) == multiset(sorted) + multiset{e}
    decreases |sorted|
  {
    if sorted == [] || sorted[|sorted| - 1].sequence <= e.sequence {
    } else {
      InsertKeepsMembers(sorted[..|sorted| - 1], e);
      SplitLast(sorted);
    }
  }

  lemma {:induction false} InsertKeepsOrder(sorted: seq<EventRecord>, e: EventRecord)
    requires Ordered(sorted)
    ensures Ordered(InsertBySequence(sorted, e))
    decreases |sorted|
  {
    if sorted == [] || sorted[|sorted| - 1].sequence <= e.sequence {
    } else {
      var front, last := sorted[..|sorted| - 1], sorted[|sorted| - 1];
      InsertKeepsOrder(front, e);
      InsertedAreBefore(front, e, last);
    }
  }

  lemma InsertedAreBefore(front: seq<EventRecord>, e: EventRecord, last: EventRecord)
    requires e.sequence < last.sequence && forall i :: 0 <= i < |front| ==> front[i].sequence <= last.sequence
    ensures forall i :: 0 <= i < |InsertBySequence(front, e)| ==> InsertBySequence(front, e)[i].sequence <= last.sequence
  {
    var inserted := InsertBySequence(front, e);
    InsertKeepsMembers(front, e);
    forall i | 0 <= i < |inserted|
      ensures inserted[i].sequence <= last.sequence
    {
      assert inserted[i] in multiset(inserted);
      assert inserted[i] == e || inserted[i] in multiset(front);
    }
  }

  lemma {:induction false} SortingOrders(events: seq<EventRecord>)
    ensures Ordered(SortBySequence(events)) && multiset(SortBySequence(events)) == multiset(events)
    decreases |events|
  {
    if events == [] {
    } else {
      var front, last := events[..|events| - 1], events[|events| - 1];
      SortingOrders(front);
      SplitLast(events);
      InsertKeepsOrder(SortBySequence(front), last);
      InsertKeepsMembers(SortBySequence(front), last);
    }
  }

  lemma {:induction false} SelectedRows(log: seq<EventRecord>, run: string, since: nat, e: EventRecord)
    ensures multiset(Select(log, run, since))[e] ==
            if e.runId == run && e.sequence >= since then multiset(log)[e] else 0
    decreases |log|
  {
    if log == [] {
    } else {
      SelectedRows(log[..|log| - 1], run, since, e);
      SplitLast(log);
    }
  }

  /** A run's events from a number on are exactly its rows with such numbers, as
      often as they are stored, in order of their numbers. */
  lemma EventsAreTheRunsRows(log: seq<EventRecord>, run: string, since: nat, e: EventRecord)
    ensures Ordered(GetEvents(log, run, since))
    ensures multiset(GetEvents(log, run, since))[e] ==
            if e.runId == run && e.sequence >= since then multiset(log)[e] else 0
  {
    SortingOrders(Select(log, run, since));
    SelectedRows(log, run, since, e);
  }

  function GatherRuns(log: seq<EventRecord>, runs: seq<string>, after: nat): seq<EventRecord> {
    if runs == [] then []
    else GatherRuns(log, runs[..|runs| - 1], after) + EventsAfter(log, runs[|runs| - 1], after)
  }

  /** Every stored event of the runs above `after`, in sequence order. */
  function SessionEventsAfter(log: seq<EventRecord>, runs: seq<string>, after: nat): seq<EventRecord> {
    SortBySequence(GatherRuns(log, runs, after))
  }

  /** The highest number a run recorded. */
  function LastSequence(log: seq<EventRecord>, run: string): Option<nat> {
    if log == [] then None
    else
      var last := log[|log| - 1];
      var before := LastSequence(log[..|log| - 1], run);
      if last.runId != run then before
      else if before.Some? && before.value > last.sequence then before
      else Some(last.sequence)
  }

  function HighestSequence(log: seq<EventRecord>, runs: seq<string>): Option<nat> {
    if runs == [] then None
    else
      var before := HighestSequence(log, runs[..|runs| - 1]);
      match LastSequence(log, runs[|runs| - 1])
      case None => before
      case Some(last) => if before.Some? && before.value > last then before else Some(last)
  }

  /** The number a session's next event carries. */
  function NextSessionSequence(log: seq<EventRecord>, runs: seq<string>): nat {
    match HighestSequence(log, runs)
    case None => FIRST_EVENT_SEQUENCE
    case Some(highest) => highest + 1
  }

  // ----- What the rows keep -----

  predicate SameKey(a: EventRecord, b: EventRecord) {
    a.eventId == b.eventId || (a.runId == b.runId && a.sequence == b.sequence)
  }

  /** Every row carries its own hash and fits the database, and no two share an
      id or a place in a run. */
  ghost predicate SoundRows(rows: seq<EventRecord>, sha: Sha) {
    && (forall i :: 0 <= i < |rows| ==>
          rows[i].eventHash == CalculateHash(rows[i], sha) && rows[i].sequence <= I64_MAX && rows[i].timestampMs <= I64_MAX)
    && (forall i, j :: 0 <= i < j < |rows| ==> !SameKey(rows[i], rows[j]))
  }

  // ----- The store object -----

  class EventStore {
    const sha: Sha
    /** The rows, in insertion order. */
    var log: seq<EventRecord>
    /** What was sent to live subscribers since the store was opened. */
    var published: seq<EventRecord>

    constructor (sha: Sha, rows: seq<EventRecord>)
      ensures this.sha == sha && log == rows && published == []
    {
      this.sha := sha;
      log := rows;
      published := [];
    }

    predicate Accepts(e: EventRecord)
      reads this
    {
      && VerifyIntegrity(e, sha)
      && e.sequence <= I64_MAX && e.timestampMs <= I64_MAX
      && forall i :: 0 <= i < |log| ==>
           log[i].eventId != e.eventId && !(log[i].runId == e.runId && log[i].sequence == e.sequence)
    }

    /** Inserts an event whose hash holds, and only then publishes it. */
    method AppendEvent(e: EventRecord) returns (ok: bool)
      modifies this
      ensures ok <==> old(Accepts(e))
      ensures log == if ok then old(log) + [e] else old(log)
      ensures published == if ok then old(published) + [e] else old(published)
      ensures old(SoundRows(log, sha)) ==> SoundRows(log, sha) && (ok <==> SoundRows(old(log) + [e], sha))
    {
      ghost var more := log + [e];
      assert more[|log|] == e;
      if !VerifyIntegrity(e, sha) {
        return false;
      }
      if e.sequence > I64_MAX || e.timestampMs > I64_MAX {
        return false;
      }
      for i := 0 to |log|
        invariant log == old(log) && published == old(published)
        invariant forall k :: 0 <= k < i ==>
                    log[k].eventId != e.eventId && !(log[k].runId == e.runId && log[k].sequence == e.sequence)
      {
        if log[i].eventId == e.eventId || (log[i].runId == e.runId && log[i].sequence == e.sequence) {
          assert SameKey(more[i], more[|log|]);
          return false;
        }
      }
      log := log + [e];
      published := published + [e];
      return true;
    }
  }

  /** `session_events_after`, given the session's run list. */
  method ReadSession(store: EventStore, runs: seq<string>, after: nat) returns (events: seq<EventRecord>)
    ensures events == SessionEventsAfter(store.log, runs, after)
  {
    events := [];
    for i := 0 to |runs|
      invariant events == GatherRuns(store.log, runs[..i], after)
    {
      assert runs[..i + 1][..i] == runs[..i];
      events := events + EventsAfter(store.log, runs[i], after);
    }
    assert runs[..|runs|] == runs;
    events := SortBySequence(events);
  }

  /** `next_session_sequence`, given the session's run list. */
  method NextNumber(store: EventStore, runs: seq<string>) returns (next: nat)
    ensures next == NextSessionSequence(store.log, runs)
  {
    var highest: Option<nat> := None;
    for i := 0 to |runs|
      invariant highest == HighestSequence(store.log, runs[..i])
    {
      assert runs[..i + 1][..i] == runs[..i];
      var last := LastSequence(store.log, runs[i]);
      if last.Some? {
        highest := Some(if highest.Some? && highest.value > last.value then highest.value else last.value);
      }
    }
    assert runs[..|runs|] == runs;
    return if highest.Some? then highest.value + 1 else FIRST_EVENT_SEQUENCE;
  }
}
