/** Commands running side by side over one journal, with crashes, reopening and
    reconciliation (crates/vitna-runner/src/lib.rs, crates/vitna-runner/src/journal.rs). */
module RunnerProtocol {
  import opened Common
  import opened ActionJournals

  // ----- One command -----

  /** How a command ends; what the runner journals depends on nothing else. */
  datatype Ending =
    | SandboxUnavailable
    | SpawnFailed
    | WaitFailed(teardown: string)
    | TimedOut(teardown: string)
    | Exited(exitCode: int, stdout: string, stderr: string)

  datatype Isolation = Isolation(backend: string, enforcement: string)

  /** The entries one undisturbed command journals, in order. */
  function Script(id: string, digest: string, isolation: Isolation, ending: Ending, now: nat, later: nat): seq<Entry> {
    var prepared := PreparedEntry(id, digest, now);
    if ending.SandboxUnavailable? then [prepared, WithRefusal(prepared, "sandbox_unavailable", now)]
    else
      var started := WithStart(prepared, now);
      var isolated := WithSandbox(started, isolation.backend, isolation.enforcement);
      [prepared, started, isolated] + EndingScript(isolated, ending, now, later)
  }

  /** The entries after the sandbox was recorded. */
  function EndingScript(isolated: Entry, ending: Ending, now: nat, later: nat): seq<Entry> {
    match ending
    case SpawnFailed => [WithRefusal(isolated, "spawn_failed", now)]
    case WaitFailed(teardown) => [WithInterruption(isolated, "wait_failed", teardown, now)]
    case TimedOut(teardown) => [WithInterruption(isolated, "timeout", teardown, later)]
    case Exited(code, stdout, stderr) =>
      var finished := WithFinish(isolated, code, stdout, stderr, later);
      [finished, WithAcknowledgement(finished)]
    case SandboxUnavailable => []
  }

  function Records(entries: seq<Entry>): seq<Line> {
    seq(|entries|, i requires 0 <= i < |entries| => Record(entries[i]))
  }

  /** `run_command`, reduced to its journal steps and early exits. */
  method RunCommand(journal: ActionJournal, id: string, digest: string, isolation: Isolation, ending: Ending, now: nat, later: nat)
    returns (ok: bool)
    requires journal.Valid()
    modifies journal
    ensures journal.Valid()
    ensures journal.lines == old(journal.lines) + Records(Script(id, digest, isolation, ending, now, later))
    ensures ok <==> ending.Exited?
  {
    journal.RecordPrepared(id, digest, now);
    if ending.SandboxUnavailable? {
      var _ := journal.RecordRefused(id, "sandbox_unavailable", now);
      return false;
    }
    var _ := journal.RecordStarted(id, now);
    var _ := journal.RecordSandbox(id, isolation.backend, isolation.enforcement);
    ScriptOpens(old(journal.lines), id, digest, isolation, ending, now, later);
    ok := RecordEnding(journal, id, ending, now, later);
  }

  lemma ScriptOpens(lines: seq<Line>, id: string, digest: string, isolation: Isolation, ending: Ending, now: nat, later: nat)
    requires !ending.SandboxUnavailable?
    ensures var prepared := PreparedEntry(id, digest, now);
            var started := WithStart(prepared, now);
            var isolated := WithSandbox(started, isolation.backend, isolation.enforcement);
            lines + [Record(prepared)] + [Record(started)] + [Record(isolated)] + Records(EndingScript(isolated, ending, now, later))
            == lines + Records(Script(id, digest, isolation, ending, now, later))
  {
  }

  method RecordEnding(journal: ActionJournal, id: string, ending: Ending, now: nat, later: nat) returns (ok: bool)
    requires journal.Valid() && id in journal.entries && !ending.SandboxUnavailable?
    modifies journal
    ensures journal.Valid()
    ensures journal.lines == old(journal.lines) + Records(EndingScript(old(journal.entries)[id], ending, now, later))
    ensures ok <==> ending.Exited?
  {
    match ending {
      case SpawnFailed =>
        var _ := journal.RecordRefused(id, "spawn_failed", now);
        return false;
      case WaitFailed(teardown) =>
        var _ := journal.RecordInterrupted(id, "wait_failed", teardown, now);
        return false;
      case TimedOut(teardown) =>
        var _ := journal.RecordInterrupted(id, "timeout", teardown, later);
        return false;
      case Exited(code, stdout, stderr) =>
        var _ := journal.RecordFinished(id, code, stdout, stderr, later);
        var _ := journal.RecordAcknowledged(id);
        return true;
    }
  }

  // ----- Many commands, and crashes -----

  /** Where a running command is between two of its journal steps. */
  datatype Phase = Planned | Starting | Running | Ended

  datatype System = System(lines: seq<Line>, entries: Entries, calls: map<string, Phase>, up: bool)

  datatype Step =
    | Begin(id: string, digest: string, now: nat)
    | Refuse(id: string, now: nat)
    | Start(id: string, now: nat)
    | Isolate(id: string, isolation: Isolation)
    | FailToSpawn(id: string, now: nat)
    | Interrupt(id: string, reason: string, teardown: string, now: nat)
    | Finish(id: string, exitCode: int, stdout: string, stderr: string, now: nat)
    | Acknowledge(id: string)
    | AcknowledgeLater(id: string)
    | ReconcileOne(id: string)
    | Crash
    | Reopen

  predicate FreshId(lines: seq<Line>, id: string) {
    forall i :: 0 <= i < |lines| && lines[i].Record? ==> lines[i].entry.actionId != id
  }

  predicate At(s: System, id: string, phase: Phase) {
    s.up && id in s.calls && s.calls[id] == phase && id in s.entries
  }

  /** Reconciling marks only actions whose command is over; `Reconciled` and
      `ReconcilingIsSafeExactlyWhen` show that nothing weaker will do. */
  predicate Enabled(s: System, step: Step) {
    match step
    case Begin(id, _, _) => s.up && FreshId(s.lines, id)
    case Refuse(id, _) => At(s, id, Planned)
    case Start(id, _) => At(s, id, Planned)
    case Isolate(id, _) => At(s, id, Starting)
    case FailToSpawn(id, _) => At(s, id, Running)
    case Interrupt(id, reason, _, _) => At(s, id, Running) && (reason == "timeout" || reason == "wait_failed")
    case Finish(id, _, _, _, _) => At(s, id, Running)
    case Acknowledge(id) => At(s, id, Ended)
    case AcknowledgeLater(id) => s.up && id !in s.calls && id in s.entries && s.entries[id].state == Finished
    case ReconcileOne(id) => s.up && id !in s.calls && id in s.entries && Unsettled(s.entries[id])
    case Crash => s.up
    case Reopen => !s.up
  }

  function Journalled(s: System, entry: Entry): System {
    s.(lines := s.lines + [Record(entry)], entries := s.entries[entry.actionId := entry])
  }

  function Move(s: System, id: string, phase: Phase): System {
    s.(calls := s.calls[id := phase])
  }

  function Done(s: System, id: string): System {
    s.(calls := s.calls - {id})
  }

  function Take(s: System, step: Step): System
    requires Enabled(s, step)
  {
    match step
    case Begin(id, digest, now) => Move(Journalled(s, PreparedEntry(id, digest, now)), id, Planned)
    case Refuse(id, now) => Done(Journalled(s, WithRefusal(s.entries[id], "sandbox_unavailable", now)), id)
    case Start(id, now) => Move(Journalled(s, WithStart(s.entries[id], now)), id, Starting)
    case Isolate(id, i) => Move(Journalled(s, WithSandbox(s.entries[id], i.backend, i.enforcement)), id, Running)
    case FailToSpawn(id, now) => Done(Journalled(s, WithRefusal(s.entries[id], "spawn_failed", now)), id)
    case Interrupt(id, reason, teardown, now) => Done(Journalled(s, WithInterruption(s.entries[id], reason, teardown, now)), id)
    case Finish(id, code, stdout, stderr, now) =>
      Move(Journalled(s, WithFinish(s.entries[id], code, stdout, stderr, now)), id, Ended)
    case Acknowledge(id) => Done(Journalled(s, WithAcknowledgement(s.entries[id])), id)
    case AcknowledgeLater(id) => Journalled(s, WithAcknowledgement(s.entries[id]))
    case ReconcileOne(id) => Journalled(s, WithReconciliation(s.entries[id]))
    case Crash => s.(up := false, entries := map[], calls := map[])
    case Reopen => s.(up := true, entries := Rebuild(s.lines))
  }

  /** The system starts by opening a file no action is recorded in. */
  ghost predicate Initial(s: System) {
    !s.up && s.entries == map[] && s.calls == map[] && forall i :: 0 <= i < |s.lines| ==> !s.lines[i].Record?
  }

  predicate Leads(s: System, step: Step, s': System) {
    Enabled(s, step) && s' == Take(s, step)
  }

  /** A run of the runner: its steps and the states they lead through. */
  ghost predicate Execution(states: seq<System>, steps: seq<Step>) {
    && |states| == |steps| + 1 && Initial(states[0])
    && forall i :: 0 <= i < |steps| ==> Leads(states[i], steps[i], states[i + 1])
  }

  // ----- The step machine of one action -----

  /** The entries of one action, in the order they were appended. */
  function History(lines: seq<Line>, id: string): seq<Entry> {
    if lines == [] then []
    else
      var last := lines[|lines| - 1];
      History(lines[..|lines| - 1], id) + if last.Record? && last.entry.actionId == id then [last.entry] else []
  }

  predicate Isolated(e: Entry) {
    e.state == Started && e.sandboxBackend.Some? && e.sandboxEnforcement.Some?
  }

  /** `b` may be the entry after `a`: one step, changing only what it records. */
  predicate Follows(a: Entry, b: Entry) {
    || (a.state == Prepared && b.startedAtMs.Some? && b == WithStart(a, b.startedAtMs.value))
    || (a.state == Prepared && b.finishedAtMs.Some? && b == WithRefusal(a, "sandbox_unavailable", b.finishedAtMs.value))
    || (a.state == Started && a.sandboxBackend.None? && b.sandboxBackend.Some? && b.sandboxEnforcement.Some? &&
        b == WithSandbox(a, b.sandboxBackend.value, b.sandboxEnforcement.value))
    || (Isolated(a) && b.finishedAtMs.Some? && b == WithRefusal(a, "spawn_failed", b.finishedAtMs.value))
    || (Isolated(a) && b.finishedAtMs.Some? && b.termination.Some? && b.teardown.Some? &&
        b == WithInterruption(a, b.termination.value, b.teardown.value, b.finishedAtMs.value))
    || (Isolated(a) && b.finishedAtMs.Some? && b.exitCode.Some? && b.stdoutDigest.Some? && b.stderrDigest.Some? &&
        b == WithFinish(a, b.exitCode.value, b.stdoutDigest.value, b.stderrDigest.value, b.finishedAtMs.value))
    || (a.state == Finished && b == WithAcknowledgement(a))
    || (Unsettled(a) && b == WithReconciliation(a))
  }

  /** A path of the step machine, from the start. */
  predicate LegalHistory(h: seq<Entry>) {
    if h == [] then true
    else if |h| == 1 then h[0] == PreparedEntry(h[0].actionId, h[0].argumentDigest, h[0].preparedAtMs)
    else LegalHistory(h[..|h| - 1]) && Follows(h[|h| - 2], h[|h| - 1])
  }

  function States(h: seq<Entry>): seq<ActionState> {
    seq(|h|, i requires 0 <= i < |h| => h[i].state)
  }

  /** The states a whole path passes through. */
  predicate WholePath(states: seq<ActionState>) {
    || states == [Prepared, Refused]
    || states == [Prepared, NeedsReconciliation]
    || states == [Prepared, Started, NeedsReconciliation]
    || states == [Prepared, Started, Started, Refused]
    || states == [Prepared, Started, Started, NeedsReconciliation]
    || states == [Prepared, Started, Started, Finished, Acknowledged]
  }

  predicate PrefixOfPath(states: seq<ActionState>) {
    || WholePath(states)
    || states == [] || states == [Prepared] || states == [Prepared, Started]
    || states == [Prepared, Started, Started] || states == [Prepared, Started, Started, Finished]
  }

  lemma {:induction false} LegalHistoryShape(h: seq<Entry>)
    requires LegalHistory(h)
    ensures PrefixOfPath(States(h))
    ensures h != [] ==>
              var last := h[|h| - 1];
              && (last.state == Prepared ==> |h| == 1 && last.sandboxBackend.None?)
              && (last.state == Started ==> if |h| == 2 then last.sandboxBackend.None? else |h| == 3 && Isolated(last))
    decreases |h|
  {
    if |h| <= 1 {
    } else {
      var front, last := h[..|h| - 1], h[|h| - 1];
      LegalHistoryShape(front);
      assert States(h) == States(front) + [last.state];
      assert States(front)[|front| - 1] == front[|front| - 1].state;
    }
  }

  /** An action's lines are always a prefix of one path: it is prepared once,
      started at most once, and nothing follows a refusal, an acknowledgement or
      a reconciliation. */
  lemma LegalHistoryIsPrefixOfPath(h: seq<Entry>)
    requires LegalHistory(h)
    ensures exists path :: WholePath(path) && States(h) <= path
  {
    LegalHistoryShape(h);
    var done := [Prepared, Started, Started, Finished, Acknowledged];
    assert WholePath(done);
    assert WholePath(States(h)) || States(h) <= done;
  }

  /** What one undisturbed command journals is a whole path. */
  lemma UndisturbedCommandIsWholePath(id: string, digest: string, isolation: Isolation, ending: Ending, now: nat, later: nat)
    ensures LegalHistory(Script(id, digest, isolation, ending, now, later))
    ensures WholePath(States(Script(id, digest, isolation, ending, now, later)))
  {
    var script := Script(id, digest, isolation, ending, now, later);
    assert LegalHistory(script[..1]) && LegalHistory(script[..2]) by {
      assert script[..2][..1] == script[..1];
    }
    if !ending.SandboxUnavailable? {
      assert script[..3][..2] == script[..2];
      assert LegalHistory(script[..3]);
      assert script[..4][..3] == script[..3];
      assert LegalHistory(script[..4]);
      if ending.Exited? {
        assert script[..5][..4] == script[..4];
        assert script == script[..5];
      } else {
        assert script == script[..4];
      }
    } else {
      assert script == script[..2];
    }
  }

  /** The last entry a command leaves says how it ended, what it returned and
      where it ran. */
  lemma ScriptTellsEnding(id: string, digest: string, isolation: Isolation, ending: Ending, now: nat, later: nat)
    ensures var script := Script(id, digest, isolation, ending, now, later);
            && script != []
            && var last := script[|script| - 1];
               && last.actionId == id && last.argumentDigest == digest && last.preparedAtMs == now
               && (!ending.SandboxUnavailable? ==>
                     && last.startedAtMs == Some(now)
                     && last.sandboxBackend == Some(isolation.backend) && last.sandboxEnforcement == Some(isolation.enforcement))
               && match ending
                  case SandboxUnavailable =>
                    last.state == Refused && last.termination == Some("sandbox_unavailable") && last.startedAtMs == None
                  case SpawnFailed => last.state == Refused && last.termination == Some("spawn_failed") && last.exitCode == None
                  case WaitFailed(teardown) =>
                    && last.state == NeedsReconciliation && last.termination == Some("wait_failed")
                    && last.teardown == Some(teardown) && last.finishedAtMs == Some(now) && last.exitCode == None
                  case TimedOut(teardown) =>
                    && last.state == NeedsReconciliation && last.termination == Some("timeout")
                    && last.teardown == Some(teardown) && last.finishedAtMs == Some(later) && last.exitCode == None
                  case Exited(code, stdout, stderr) =>
                    && last.state == Acknowledged && last.exitCode == Some(code) && last.finishedAtMs == Some(later)
                    && last.stdoutDigest == Some(stdout) && last.stderrDigest == Some(stderr) && last.termination == None
  {
  }

  /** Reconciling is for actions whose command is gone: one that is marked while
      its command runs leaves every path as soon as the command finishes. */
  lemma {:induction false} ReconcilingRunningCommandLeavesPaths(h: seq<Entry>, exitCode: int, stdout: string, stderr: string, now: nat)
    requires LegalHistory(h) && h != [] && Isolated(h[|h| - 1])
    ensures var marked := WithReconciliation(h[|h| - 1]);
            !PrefixOfPath(States(h + [marked, WithFinish(marked, exitCode, stdout, stderr, now)]))
  {
    LegalHistoryShape(h);
    var marked := WithReconciliation(h[|h| - 1]);
    var after := States(h + [marked, WithFinish(marked, exitCode, stdout, stderr, now)]);
    assert |h| == 3 && |after| == 5 && after[3] == NeedsReconciliation;
  }

  // ----- Invariants -----

  lemma HistoryAppend(lines: seq<Line>, entry: Entry, id: string)
    ensures History(lines + [Record(entry)], id) ==
            if entry.actionId == id then History(lines, id) + [entry] else History(lines, id)
  {
    assert (lines + [Record(entry)])[..|lines|] == lines;
  }

  /** What is rebuilt for an action is the last entry appended for it. */
  lemma {:induction false} RebuiltIsLast(lines: seq<Line>, id: string)
    ensures id in Rebuild(lines) <==> History(lines, id) != []
    ensures id in Rebuild(lines) ==>
              Rebuild(lines)[id] == History(lines, id)[|History(lines, id)| - 1] && Rebuild(lines)[id].actionId == id
    decreases |lines|
  {
    if lines == [] {
    } else {
      RebuiltIsLast(lines[..|lines| - 1], id);
    }
  }

  lemma {:induction false} FreshIdHasNoHistory(lines: seq<Line>, id: string)
    requires FreshId(lines, id)
    ensures History(lines, id) == []
    decreases |lines|
  {
    if lines == [] {
    } else {
      FreshIdHasNoHistory(lines[..|lines| - 1], id);
    }
  }

  /** The entry a call's phase implies. */
  predicate PhaseFits(phase: Phase, e: Entry) {
    match phase
    case Planned => e.state == Prepared && e.sandboxBackend.None?
    case Starting => e.state == Started && e.sandboxBackend.None?
    case Running => Isolated(e)
    case Ended => e.state == Finished
  }

  ghost predicate Inv(s: System) {
    && (forall id :: LegalHistory(History(s.lines, id)))
    && (s.up ==> s.entries == Rebuild(s.lines))
    && (!s.up ==> s.calls == map[])
    && (forall id :: id in s.calls ==> id in s.entries && PhaseFits(s.calls[id], s.entries[id]))
  }

  lemma JournalledKeepsHistories(s: System, entry: Entry)
    requires Inv(s) && s.up
    requires var h := History(s.lines, entry.actionId);
             if h == [] then entry == PreparedEntry(entry.actionId, entry.argumentDigest, entry.preparedAtMs)
             else Follows(h[|h| - 1], entry)
    ensures var s' := Journalled(s, entry);
            (forall id :: LegalHistory(History(s'.lines, id))) && s'.entries == Rebuild(s'.lines)
  {
    var s' := Journalled(s, entry);
    forall id
      ensures LegalHistory(History(s'.lines, id))
    {
      HistoryAppend(s.lines, entry, id);
      if entry.actionId == id && History(s.lines, id) != [] {
        var h := History(s.lines, id);
        assert (h + [entry])[..|h|] == h;
      }
    }
    assert s'.lines[..|s.lines|] == s.lines;
  }

  /** The entry a step appends, if it appends one. */
  function Appended(s: System, step: Step): Option<Entry>
    requires Enabled(s, step)
  {
    var s' := Take(s, step);
    if |s'.lines| > |s.lines| && s'.lines[|s.lines|].Record? then Some(s'.lines[|s.lines|].entry) else None
  }

  lemma AppendedFollows(s: System, step: Step)
    requires Inv(s) && Enabled(s, step) && !step.Crash? && !step.Reopen?
    ensures Appended(s, step).Some?
    ensures var entry := Appended(s, step).value;
            var h := History(s.lines, entry.actionId);
            && entry.actionId == step.id
            && if h == [] then entry == PreparedEntry(entry.actionId, entry.argumentDigest, entry.preparedAtMs)
               else Follows(h[|h| - 1], entry)
    ensures var entry := Appended(s, step).value;
            Take(s, step).lines == s.lines + [Record(entry)] && Take(s, step).entries == s.entries[entry.actionId := entry]
  {
    RebuiltIsLast(s.lines, step.id);
    if step.Begin? {
      FreshIdHasNoHistory(s.lines, step.id);
    } else {
      var a := s.entries[step.id];
      assert s.lines + [Record(Appended(s, step).value)] == Take(s, step).lines;
    }
  }

  lemma CallsStillFit(s: System, step: Step)
    requires Inv(s) && Enabled(s, step) && !step.Crash? && !step.Reopen?
    ensures var s' := Take(s, step);
            s'.up && forall id :: id in s'.calls ==> id in s'.entries && PhaseFits(s'.calls[id], s'.entries[id])
  {
    var s' := Take(s, step);
    RebuiltIsLast(s.lines, step.id);
    AppendedFollows(s, step);
    forall id | id in s'.calls
      ensures id in s'.entries && PhaseFits(s'.calls[id], s'.entries[id])
    {
      if id == step.id {
        OwnCallFits(s, step);
      } else {
        assert id in s.calls && s'.calls[id] == s.calls[id];
        assert s'.entries[id] == s.entries[id];
      }
    }
  }

  /** The call a step belongs to moves on as its entry does, or is over. */
  lemma OwnCallFits(s: System, step: Step)
    requires Enabled(s, step) && !step.Crash? && !step.Reopen?
    requires step.id in s.calls ==> step.id in s.entries && PhaseFits(s.calls[step.id], s.entries[step.id])
    requires step.id in s.entries ==> s.entries[step.id].actionId == step.id
    ensures step.id in Take(s, step).calls ==>
              && step.id in Take(s, step).entries
              && PhaseFits(Take(s, step).calls[step.id], Take(s, step).entries[step.id])
  {
  }

  lemma StepKeepsInv(s: System, step: Step)
    requires Inv(s) && Enabled(s, step)
    ensures Inv(Take(s, step))
  {
    if !step.Crash? && !step.Reopen? {
      AppendedFollows(s, step);
      JournalledKeepsHistories(s, Appended(s, step).value);
      CallsStillFit(s, step);
    }
  }

  lemma {:induction false} NoRecordsNoHistory(lines: seq<Line>, id: string)
    requires forall i :: 0 <= i < |lines| ==> !lines[i].Record?
    ensures History(lines, id) == []
    decreases |lines|
  {
    if lines == [] {
    } else {
      NoRecordsNoHistory(lines[..|lines| - 1], id);
    }
  }

  lemma {:induction false} ReachableStatesSatisfyInv(states: seq<System>, steps: seq<Step>, n: nat)
    requires Execution(states, steps) && n < |states|
    ensures Inv(states[n])
  {
    if n == 0 {
      forall id
        ensures LegalHistory(History(states[0].lines, id))
      {
        NoRecordsNoHistory(states[0].lines, id);
      }
    } else {
      ReachableStatesSatisfyInv(states, steps, n - 1);
      assert Leads(states[n - 1], steps[n - 1], states[n]);
      StepKeepsInv(states[n - 1], steps[n - 1]);
    }
  }

  // ----- A command is a run of the machine -----

  /** The steps one undisturbed command takes. */
  function StepsOf(id: string, digest: string, isolation: Isolation, ending: Ending, now: nat, later: nat): seq<Step> {
    if ending.SandboxUnavailable? then [Begin(id, digest, now), Refuse(id, now)]
    else FirstSteps(id, digest, isolation, now) + LastSteps(id, ending, now, later)
  }

  function FirstSteps(id: string, digest: string, isolation: Isolation, now: nat): seq<Step> {
    [Begin(id, digest, now), Start(id, now)] + [Isolate(id, isolation)]
  }

  function LastSteps(id: string, ending: Ending, now: nat, later: nat): seq<Step> {
    match ending
    case SpawnFailed => [FailToSpawn(id, now)]
    case WaitFailed(teardown) => [Interrupt(id, "wait_failed", teardown, now)]
    case TimedOut(teardown) => [Interrupt(id, "timeout", teardown, later)]
    case Exited(code, stdout, stderr) => [Finish(id, code, stdout, stderr, later), Acknowledge(id)]
    case SandboxUnavailable => []
  }

  /** The system after steps that are each enabled when they come, if they are. */
  function AfterSteps(s: System, steps: seq<Step>): Option<System>
    decreases |steps|
  {
    if steps == [] then Some(s)
    else if Enabled(s, steps[0]) then AfterSteps(Take(s, steps[0]), steps[1..])
    else None
  }

  lemma {:induction false} StepsThenSteps(s: System, first: seq<Step>, rest: seq<Step>)
    requires AfterSteps(s, first).Some?
    ensures AfterSteps(s, first + rest) == AfterSteps(AfterSteps(s, first).value, rest)
    decreases |first|
  {
    if first == [] {
      assert first + rest == rest;
    } else {
      assert (first + rest)[1..] == first[1..] + rest;
      StepsThenSteps(Take(s, first[0]), first[1..], rest);
    }
  }

  lemma OneStep(s: System, step: Step)
    requires Enabled(s, step)
    ensures AfterSteps(s, [step]) == Some(Take(s, step))
  {
    assert [step][1..] == [];
  }

  lemma TwoSteps(s: System, a: Step, b: Step)
    requires Enabled(s, a) && Enabled(Take(s, a), b)
    ensures AfterSteps(s, [a, b]) == Some(Take(Take(s, a), b))
  {
    OneStep(Take(s, a), b);
    assert [a, b][1..] == [b];
  }

  /** From its sandbox on, a command can take the steps of every ending, and
      they journal what `EndingScript` says. */
  lemma EndingRuns(s: System, id: string, ending: Ending, now: nat, later: nat)
    requires At(s, id, Running) && s.entries[id].actionId == id && !ending.SandboxUnavailable?
    ensures var s' := AfterSteps(s, LastSteps(id, ending, now, later));
            && s'.Some?
            && s'.value.lines == s.lines + Records(EndingScript(s.entries[id], ending, now, later))
            && s'.value.calls == s.calls - {id}
  {
    match ending {
      case SpawnFailed => OneStep(s, FailToSpawn(id, now));
      case WaitFailed(teardown) => OneStep(s, Interrupt(id, "wait_failed", teardown, now));
      case TimedOut(teardown) => OneStep(s, Interrupt(id, "timeout", teardown, later));
      case Exited(code, stdout, stderr) =>
        TwoSteps(s, Finish(id, code, stdout, stderr, later), Acknowledge(id));
    }
  }

  /** Up to its sandbox, a command prepares, starts and notes where it runs. */
  lemma OpeningRuns(s: System, id: string, digest: string, isolation: Isolation, now: nat)
    requires s.up && FreshId(s.lines, id)
    ensures var prepared := PreparedEntry(id, digest, now);
            var started := WithStart(prepared, now);
            var isolated := WithSandbox(started, isolation.backend, isolation.enforcement);
            var s' := AfterSteps(s, FirstSteps(id, digest, isolation, now));
            && s'.Some? && At(s'.value, id, Running) && s'.value.entries[id] == isolated
            && s'.value.lines == s.lines + [Record(prepared)] + [Record(started)] + [Record(isolated)]
            && s'.value.calls == s.calls[id := Running]
  {
    var begun := Take(s, Begin(id, digest, now));
    var started := Take(begun, Start(id, now));
    TwoSteps(s, Begin(id, digest, now), Start(id, now));
    OneStep(started, Isolate(id, isolation));
    StepsThenSteps(s, [Begin(id, digest, now), Start(id, now)], [Isolate(id, isolation)]);
  }

  /** Whatever else is running, a command with a fresh id can take its steps to
      each of its endings, and they journal exactly what `RunCommand` does. */
  lemma CommandIsRunOfMachine(s: System, id: string, digest: string, isolation: Isolation, ending: Ending, now: nat, later: nat)
    requires s.up && FreshId(s.lines, id)
    ensures var s' := AfterSteps(s, StepsOf(id, digest, isolation, ending, now, later));
            && s'.Some?
            && s'.value.lines == s.lines + Records(Script(id, digest, isolation, ending, now, later))
            && s'.value.calls == s.calls - {id}
  {
    if ending.SandboxUnavailable? {
      RefusalRuns(s, id, digest, isolation, now, later);
    } else {
      var first := FirstSteps(id, digest, isolation, now);
      OpeningRuns(s, id, digest, isolation, now);
      StepsThenSteps(s, first, LastSteps(id, ending, now, later));
      EndingRuns(AfterSteps(s, first).value, id, ending, now, later);
      ScriptOpens(s.lines, id, digest, isolation, ending, now, later);
      assert s.calls[id := Running] - {id} == s.calls - {id};
    }
  }

  lemma RefusalRuns(s: System, id: string, digest: string, isolation: Isolation, now: nat, later: nat)
    requires s.up && FreshId(s.lines, id)
    ensures var s' := AfterSteps(s, [Begin(id, digest, now), Refuse(id, now)]);
            && s'.Some?
            && s'.value.lines == s.lines + Records(Script(id, digest, isolation, SandboxUnavailable, now, later))
            && s'.value.calls == s.calls - {id}
  {
    TwoSteps(s, Begin(id, digest, now), Refuse(id, now));
    assert s.calls[id := Planned] - {id} == s.calls - {id};
  }

  // ----- When reconciling is safe -----

  /** The system after an action was marked, whether its command is over or not. */
  function Reconciled(s: System, id: string): System
    requires id in s.entries
  {
    Journalled(s, WithReconciliation(s.entries[id]))
  }

  /** A step after which an action's lines are on no path. */
  predicate LeavesPaths(s: System, step: Step, id: string) {
    Enabled(s, step) && !PrefixOfPath(States(History(Take(s, step).lines, id)))
  }

  /** Marking an unsettled action is safe exactly when its command has no step
      left to journal: then no later step appends to it, and otherwise the
      command's next step puts the action off every path. */
  lemma ReconcilingIsSafeExactlyWhen(s: System, id: string)
    requires Inv(s) && s.up && id in s.entries && Unsettled(s.entries[id])
    ensures id !in s.calls <==> forall step :: !LeavesPaths(Reconciled(s, id), step, id)
    ensures id !in s.calls ==> Inv(Reconciled(s, id))
    ensures id !in s.calls ==>
              forall step :: Enabled(Reconciled(s, id), step) ==>
                History(Take(Reconciled(s, id), step).lines, id) == History(Reconciled(s, id).lines, id)
  {
    MarkedHistory(s, id);
    var s' := Reconciled(s, id);
    if id in s.calls {
      var step := NextOfCall(s, id);
      RunningCallLeavesPaths(s, id, step);
    } else {
      StepKeepsInv(s, ReconcileOne(id));
      forall step
        ensures !LeavesPaths(s', step, id)
      {
        if Enabled(s', step) {
          StepKeepsInv(s', step);
          LegalHistoryShape(History(Take(s', step).lines, id));
        }
      }
      forall step | Enabled(s', step)
        ensures History(Take(s', step).lines, id) == History(s'.lines, id)
      {
        MarkedStaysLast(s', id, step);
      }
    }
  }

  /** A step the running command may take next. */
  function NextOfCall(s: System, id: string): Step
    requires id in s.calls
  {
    match s.calls[id]
    case Planned => Start(id, 0)
    case Starting => Isolate(id, Isolation("", ""))
    case Running => FailToSpawn(id, 0)
    case Ended => Acknowledge(id)
  }

  lemma MarkedHistory(s: System, id: string)
    requires Inv(s) && s.up && id in s.entries && Unsettled(s.entries[id])
    ensures var h := History(s.lines, id);
            && LegalHistory(h) && h != [] && s.entries[id] == h[|h| - 1] && s.entries[id].actionId == id
            && History(Reconciled(s, id).lines, id) == h + [WithReconciliation(h[|h| - 1])]
  {
    RebuiltIsLast(s.lines, id);
    HistoryAppend(s.lines, WithReconciliation(s.entries[id]), id);
  }

  /** Nothing follows a reconciliation on any path. */
  lemma ReconciledIsLast(states: seq<ActionState>, k: nat)
    requires k + 1 < |states| && states[k] == NeedsReconciliation
    ensures !PrefixOfPath(states)
  {
  }

  /** The running command's next step appends one more line for its action. */
  lemma RunningCallGoesOn(s: System, id: string, step: Step)
    requires s.up && id in s.entries && s.entries[id].actionId == id && Unsettled(s.entries[id])
    requires id in s.calls && PhaseFits(s.calls[id], s.entries[id]) && step == NextOfCall(s, id)
    ensures Enabled(Reconciled(s, id), step)
    ensures var s', next := Reconciled(s, id), Take(Reconciled(s, id), step);
            id in next.entries && next.lines == s'.lines + [Record(next.entries[id])] && next.entries[id].actionId == id
  {
  }

  /** A marked action whose command is over gets no further line. */
  lemma MarkedStaysLast(s: System, id: string, step: Step)
    requires Inv(s) && s.up && id in s.entries && id !in s.calls && Enabled(s, step)
    requires s.entries[id].state == NeedsReconciliation
    ensures History(Take(s, step).lines, id) == History(s.lines, id)
  {
    if !step.Crash? && !step.Reopen? {
      AppendedFollows(s, step);
      RebuiltIsLast(s.lines, id);
      if step.Begin? && step.id == id {
        FreshIdHasNoHistory(s.lines, id);
      }
      HistoryAppend(s.lines, Appended(s, step).value, id);
    }
  }

  lemma RunningCallLeavesPaths(s: System, id: string, step: Step)
    requires Inv(s) && s.up && id in s.entries && Unsettled(s.entries[id]) && id in s.calls
    requires step == NextOfCall(s, id)
    ensures LeavesPaths(Reconciled(s, id), step, id)
  {
    MarkedHistory(s, id);
    var h, s' := History(s.lines, id), Reconciled(s, id);
    RunningCallGoesOn(s, id, step);
    HistoryAppend(s'.lines, Take(s', step).entries[id], id);
    ReconciledIsLast(States(History(Take(s', step).lines, id)), |h|);
  }

  // ----- What entries tell -----

  /** A step that was taken among the first `n`. */
  predicate Took(steps: seq<Step>, n: nat, step: Step) {
    n <= |steps| && step in steps[..n]
  }

  /** An entry tells nothing but what steps reported of its action: when and for
      what it was prepared, when it started, where it was isolated, and how it
      ended. */
  ghost predicate Told(e: Entry, steps: seq<Step>, n: nat) {
    && Took(steps, n, Begin(e.actionId, e.argumentDigest, e.preparedAtMs))
    && (e.startedAtMs.Some? ==> Took(steps, n, Start(e.actionId, e.startedAtMs.value)))
    && IsolationTold(e, steps, n) && ResultTold(e, steps, n) && EndTold(e, steps, n)
    && (e.state == Prepared || e.state == Started ==> e.finishedAtMs.None? && e.exitCode.None? && e.termination.None?)
    && (e.state == Finished || e.state == Acknowledged ==> e.exitCode.Some?)
    && (e.state == Refused ==> e.termination.Some? && e.teardown.None?)
  }

  ghost predicate IsolationTold(e: Entry, steps: seq<Step>, n: nat) {
    && (e.sandboxBackend.Some? <==> e.sandboxEnforcement.Some?)
    && (e.sandboxBackend.Some? ==>
          Took(steps, n, Isolate(e.actionId, Isolation(e.sandboxBackend.value, e.sandboxEnforcement.value))))
  }

  /** The exit code and the digests of the output are those it finished with. */
  ghost predicate ResultTold(e: Entry, steps: seq<Step>, n: nat) {
    && (e.exitCode.Some? <==> e.stdoutDigest.Some?) && (e.exitCode.Some? <==> e.stderrDigest.Some?)
    && (e.exitCode.Some? ==>
          && e.finishedAtMs.Some? && e.termination.None?
          && Took(steps, n, Finish(e.actionId, e.exitCode.value, e.stdoutDigest.value, e.stderrDigest.value, e.finishedAtMs.value)))
  }

  ghost predicate EndTold(e: Entry, steps: seq<Step>, n: nat) {
    && (e.teardown.Some? ==>
          && e.termination.Some? && e.finishedAtMs.Some?
          && Took(steps, n, Interrupt(e.actionId, e.termination.value, e.teardown.value, e.finishedAtMs.value)))
    && (e.termination.Some? && e.teardown.None? ==>
          && e.finishedAtMs.Some?
          && (|| (e.termination.value == "sandbox_unavailable" && Took(steps, n, Refuse(e.actionId, e.finishedAtMs.value)))
              || (e.termination.value == "spawn_failed" && Took(steps, n, FailToSpawn(e.actionId, e.finishedAtMs.value)))))
  }

  ghost predicate AllTold(s: System, steps: seq<Step>, n: nat) {
    && (forall i :: 0 <= i < |s.lines| && s.lines[i].Record? ==> Told(s.lines[i].entry, steps, n))
    && (forall id :: id in s.entries ==> Told(s.entries[id], steps, n))
  }

  lemma StillTold(e: Entry, steps: seq<Step>, n: nat)
    requires Told(e, steps, n) && n < |steps|
    ensures Told(e, steps, n + 1)
  {
    assert forall step :: step in steps[..n] ==> step in steps[..n + 1];
  }

  lemma JustTook(steps: seq<Step>, n: nat)
    requires n < |steps|
    ensures Took(steps, n + 1, steps[n])
  {
    assert steps[..n + 1][n] == steps[n];
  }

  /** The entry that a step appends tells what the step reported, and for the
      rest what the action's entry told before. */
  lemma AppendedIsTold(s: System, steps: seq<Step>, n: nat)
    requires Inv(s) && n < |steps| && Enabled(s, steps[n]) && !steps[n].Crash? && !steps[n].Reopen?
    requires steps[n].id in s.entries ==> Told(s.entries[steps[n].id], steps, n + 1) && s.entries[steps[n].id].actionId == steps[n].id
    ensures Took(steps, n + 1, steps[n])
    ensures Appended(s, steps[n]).Some? && Told(Appended(s, steps[n]).value, steps, n + 1)
  {
    JustTook(steps, n);
    assert Take(s, steps[n]).lines[|s.lines|].Record?;
  }

  lemma {:induction false} RebuiltIsLine(lines: seq<Line>, id: string)
    requires id in Rebuild(lines)
    ensures exists i :: 0 <= i < |lines| && lines[i] == Record(Rebuild(lines)[id])
    decreases |lines|
  {
    var front, last := lines[..|lines| - 1], lines[|lines| - 1];
    if last.Record? && last.entry.actionId == id {
    } else {
      RebuiltIsLine(front, id);
      var i :| 0 <= i < |front| && front[i] == Record(Rebuild(front)[id]);
      assert lines[i] == Record(Rebuild(lines)[id]);
    }
  }

  lemma StepKeepsTold(s: System, steps: seq<Step>, n: nat)
    requires Inv(s) && n < |steps| && Enabled(s, steps[n]) && AllTold(s, steps, n)
    ensures AllTold(Take(s, steps[n]), steps, n + 1)
  {
    var s' := Take(s, steps[n]);
    forall i | 0 <= i < |s.lines| && s.lines[i].Record?
      ensures Told(s.lines[i].entry, steps, n + 1)
    {
      StillTold(s.lines[i].entry, steps, n);
    }
    forall id | id in s.entries
      ensures Told(s.entries[id], steps, n + 1)
    {
      StillTold(s.entries[id], steps, n);
    }
    if steps[n].Reopen? {
      forall id | id in s'.entries
        ensures Told(s'.entries[id], steps, n + 1)
      {
        RebuiltIsLine(s.lines, id);
      }
    } else if !steps[n].Crash? {
      RebuiltIsLast(s.lines, steps[n].id);
      AppendedIsTold(s, steps, n);
      AppendedFollows(s, steps[n]);
    }
  }

  /** In every reachable state every line of the file, and every entry in memory,
      tells only what steps of its action reported. */
  lemma {:induction false} EntriesTellWhatHappened(states: seq<System>, steps: seq<Step>, n: nat)
    requires Execution(states, steps) && n < |states|
    ensures AllTold(states[n], steps, n)
    decreases n
  {
    if n == 0 {
      NothingTold(states[0], steps);
    } else {
      EntriesTellWhatHappened(states, steps, n - 1);
      OneMoreTold(states, steps, n - 1);
    }
  }

  lemma NothingTold(s: System, steps: seq<Step>)
    requires Initial(s)
    ensures AllTold(s, steps, 0)
  {
  }

  lemma OneMoreTold(states: seq<System>, steps: seq<Step>, n: nat)
    requires Execution(states, steps) && n < |steps| && AllTold(states[n], steps, n)
    ensures AllTold(states[n + 1], steps, n + 1)
  {
    ReachableStatesSatisfyInv(states, steps, n);
    assert Leads(states[n], steps[n], states[n + 1]);
    StepKeepsTold(states[n], steps, n);
  }

  // ----- The main results -----

  /** However commands interleave and wherever the runner crashes, each action's
      lines in the file are a prefix of one path of the step machine. */
  lemma EveryActionFollowsThePaths(states: seq<System>, steps: seq<Step>, n: nat, id: string)
    requires Execution(states, steps) && n < |states|
    ensures var h := History(states[n].lines, id);
            LegalHistory(h) && exists path :: WholePath(path) && States(h) <= path
  {
    ReachableStatesSatisfyInv(states, steps, n);
    LegalHistoryIsPrefixOfPath(History(states[n].lines, id));
  }

  lemma ReopeningRebuilds(s: System)
    requires s.up
    ensures Take(Take(s, Crash), Reopen).entries == Rebuild(s.lines)
  {
  }

  lemma EntriesAreRebuilt(s: System)
    requires Inv(s) && s.up
    ensures s.entries == Rebuild(s.lines)
  {
  }

  /** A crash loses nothing that was journalled: reopening rebuilds exactly the
      entries that were in memory. */
  lemma CrashAndReopenRestoreEntries(states: seq<System>, steps: seq<Step>, n: nat)
    requires Execution(states, steps) && n < |states| && states[n].up
    ensures Take(Take(states[n], Crash), Reopen).entries == states[n].entries
  {
    ReachableStatesSatisfyInv(states, steps, n);
    EntriesAreRebuilt(states[n]);
    ReopeningRebuilds(states[n]);
  }

  /** Right after reopening, the actions that reconciling will mark are exactly
      those a crash caught between being prepared and being settled; a finished
      one keeps its result. */
  lemma ReconciliationFindsWhatCrashInterrupted(states: seq<System>, steps: seq<Step>, n: nat, id: string)
    requires Execution(states, steps) && n < |states| && states[n].up && id in states[n].entries
    ensures Unsettled(states[n].entries[id]) <==>
            var path := States(History(states[n].lines, id));
            path == [Prepared] || path == [Prepared, Started] || path == [Prepared, Started, Started]
  {
    var h := History(states[n].lines, id);
    assert LegalHistory(h) && states[n].entries == Rebuild(states[n].lines) by {
      ReachableStatesSatisfyInv(states, steps, n);
    }
    RebuiltIsLast(states[n].lines, id);
    UnsettledHistory(h);
  }

  lemma UnsettledHistory(h: seq<Entry>)
    requires LegalHistory(h) && h != []
    ensures Unsettled(h[|h| - 1]) <==>
            States(h) == [Prepared] || States(h) == [Prepared, Started] || States(h) == [Prepared, Started, Started]
  {
    LegalHistoryShape(h);
    LastStateTells(States(h));
    assert States(h)[|h| - 1] == h[|h| - 1].state;
  }

  lemma LastStateTells(states: seq<ActionState>)
    requires PrefixOfPath(states) && states != []
    ensures states[|states| - 1] == Prepared || states[|states| - 1] == Started <==>
            states == [Prepared] || states == [Prepared, Started] || states == [Prepared, Started, Started]
  {
  }
}
