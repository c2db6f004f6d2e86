/** The orchestration engine as a recorder of events
    (crates/orchestration/src/engine.rs). */
module Engines {
  import opened Common
  import opened EventStores
  import opened EventChain

  datatype StepType =
    | InspectWorkspace
    | ProposeEdit(path: string, content: string)
    | RunVerification(command: string)

  datatype Config = Config(autoApprove: bool, allowUnsandboxed: bool, spawnsProcesses: bool)

  datatype ToolResult = ToolResult(success: bool, preimageHash: Option<string>, postimageHash: Option<string>)

  /** What a step meets outside the engine: whether a sandbox is available, what
      the context assembler says, and what the tool returns, if it does. */
  datatype World = World(context: string, sandbox: bool, tool: Option<ToolResult>)

  datatype Body =
    | ContextBody(context: string)
    | ApprovalBody(tool: string, actionDigest: string, reason: Option<string>)
    | StartedBody(tool: string, actionDigest: string)
    | FinishedBody(tool: string, success: bool, preimageHash: Option<string>, postimageHash: Option<string>)
    | OtherBody(text: Bytes)

  datatype Item = Item(typeUrl: string, body: Body)

  const CONTEXT_ASSEMBLED := "vitna.v1.ContextAssembled"
  const APPROVAL_REQUESTED := "vitna.v1.ApprovalRequested"
  const APPROVAL_GRANTED := "vitna.v1.ApprovalGranted"
  const TOOL_STARTED := "vitna.v1.ToolStarted"
  const TOOL_FINISHED := "vitna.v1.ToolFinished"

  datatype Outcome =
    | Finished(result: ToolResult)
    | NeedsApproval
    | NeedsUnsandboxedApproval
    | ToolFailed
    | StoreRefused

  function ToolName(step: StepType): string {
    match step
    case InspectWorkspace => "list_dir"
    case ProposeEdit(_, _) => "write_file"
    case RunVerification(_) => "run_command"
  }

  predicate Mutating(step: StepType) {
    !step.InspectWorkspace?
  }

  /** The events a step means to record, and how it then ends. */
  datatype Plan = Plan(items: seq<Item>, outcome: Outcome)

  function PlanOf(step: StepType, digest: string, config: Config, world: World): Plan {
    var tool := ToolName(step);
    var opening := [Item(CONTEXT_ASSEMBLED, ContextBody(world.context))];
    var asked := opening + [Item(APPROVAL_REQUESTED, ApprovalBody(tool, digest, None))];
    if Mutating(step) && !config.autoApprove then Plan(asked, NeedsApproval)
    else
      var approved := if Mutating(step) then asked + [Item(APPROVAL_GRANTED, ApprovalBody(tool, digest, None))] else opening;
      var unconfined := step.RunVerification? && config.spawnsProcesses && !world.sandbox;
      var askedAgain := approved + [Item(APPROVAL_REQUESTED, ApprovalBody(tool, digest, Some("sandbox_unavailable")))];
      if unconfined && !config.allowUnsandboxed then Plan(askedAgain, NeedsUnsandboxedApproval)
      else
        var cleared :=
          if unconfined
          then askedAgain + [Item(APPROVAL_GRANTED, ApprovalBody(tool, digest, Some("unsandboxed_execution_approved")))]
          else approved;
        var started := cleared + [Item(TOOL_STARTED, StartedBody(tool, digest))];
        match world.tool
        case None => Plan(started, ToolFailed)
        case Some(result) =>
          Plan(started + [Item(TOOL_FINISHED, FinishedBody(tool, result.success, result.preimageHash, result.postimageHash))],
               Finished(result))
  }

  /** How a step's plan begins: with the context, then with the approval a
      mutating tool needs. */
  predicate Opens(plan: Plan, step: StepType, digest: string, config: Config, world: World) {
    var tool := ToolName(step);
    && plan.items != []
    && plan.items[0] == Item(CONTEXT_ASSEMBLED, ContextBody(world.context))
    && (Mutating(step) ==>
          && |plan.items| > 1
          && plan.items[1] == Item(APPROVAL_REQUESTED, ApprovalBody(tool, digest, None))
          && if config.autoApprove
             then |plan.items| > 2 && plan.items[2] == Item(APPROVAL_GRANTED, ApprovalBody(tool, digest, None))
             else |plan.items| == 2 && plan.outcome == NeedsApproval)
  }

  predicate Unconfined(step: StepType, config: Config, world: World) {
    step.RunVerification? && config.spawnsProcesses && !world.sandbox
  }

  /** Where in the plan the tool starts, when the step gets that far. */
  function StartIndex(step: StepType, config: Config, world: World): nat {
    (if Mutating(step) then 3 else 1) + if Unconfined(step, config, world) then 2 else 0
  }

  /** How a step's plan ends from its tool's start on. */
  predicate Runs(plan: Plan, n: nat, tool: string, digest: string, world: World) {
    && n < |plan.items| && plan.items[n] == Item(TOOL_STARTED, StartedBody(tool, digest))
    && match world.tool
       case None => |plan.items| == n + 1 && plan.outcome == ToolFailed
       case Some(result) =>
         && |plan.items| == n + 2 && plan.outcome == Finished(result)
         && plan.items[n + 1] ==
            Item(TOOL_FINISHED, FinishedBody(tool, result.success, result.preimageHash, result.postimageHash))
  }

  lemma PlanRuns(step: StepType, digest: string, config: Config, world: World)
    requires Mutating(step) ==> config.autoApprove
    requires Unconfined(step, config, world) ==> config.allowUnsandboxed
    ensures Runs(PlanOf(step, digest, config, world), StartIndex(step, config, world), ToolName(step), digest, world)
  {
  }

  lemma PlanOpens(step: StepType, digest: string, config: Config, world: World)
    ensures Opens(PlanOf(step, digest, config, world), step, digest, config, world)
  {
  }

  /** How a step ends when the store takes every event: anything but a look at
      the workspace needs the operator's approval, a command that would run
      outside a sandbox needs another, and then the tool decides. */
  function EndOf(step: StepType, config: Config, world: World): Outcome {
    if (step.ProposeEdit? || step.RunVerification?) && !config.autoApprove then NeedsApproval
    else if step.RunVerification? && config.spawnsProcesses && !world.sandbox && !config.allowUnsandboxed
    then NeedsUnsandboxedApproval
    else if world.tool.None? then ToolFailed
    else Finished(world.tool.value)
  }

  lemma PlanEnds(step: StepType, digest: string, config: Config, world: World)
    ensures PlanOf(step, digest, config, world).outcome == EndOf(step, config, world)
  {
  }

  /** The longest plan, spelled out, and the shortest. */
  lemma WholePlans(command: string, digest: string, context: string, result: ToolResult)
    ensures PlanOf(RunVerification(command), digest, Config(true, true, true), World(context, false, Some(result))).items ==
            [Item("vitna.v1.ContextAssembled", ContextBody(context)),
             Item("vitna.v1.ApprovalRequested", ApprovalBody("run_command", digest, None)),
             Item("vitna.v1.ApprovalGranted", ApprovalBody("run_command", digest, None)),
             Item("vitna.v1.ApprovalRequested", ApprovalBody("run_command", digest, Some("sandbox_unavailable"))),
             Item("vitna.v1.ApprovalGranted", ApprovalBody("run_command", digest, Some("unsandboxed_execution_approved"))),
             Item("vitna.v1.ToolStarted", StartedBody("run_command", digest)),
             Item("vitna.v1.ToolFinished", FinishedBody("run_command", result.success, result.preimageHash, result.postimageHash))]
    ensures PlanOf(InspectWorkspace, digest, Config(false, false, true), World(context, false, Some(result))).items ==
            [Item("vitna.v1.ContextAssembled", ContextBody(context)),
             Item("vitna.v1.ToolStarted", StartedBody("list_dir", digest)),
             Item("vitna.v1.ToolFinished", FinishedBody("list_dir", result.success, result.preimageHash, result.postimageHash))]
  {
  }

  // ----- What an engine has done -----

  /** A step run, of whose plan `n` items were recorded, or an event recorded
      by itself: a prompt, a receipt. */
  datatype Deed =
    | Stepped(step: StepType, digest: string, world: World, n: nat)
    | Noted(item: Item)

  predicate WithinPlan(deed: Deed, config: Config) {
    deed.Stepped? ==> deed.n <= |PlanOf(deed.step, deed.digest, config, deed.world).items|
  }

  /** The items a deed recorded. */
  function ItemsOfDeed(deed: Deed, config: Config): seq<Item>
    requires WithinPlan(deed, config)
  {
    match deed
    case Stepped(step, digest, world, n) => PlanOf(step, digest, config, world).items[..n]
    case Noted(item) => [item]
  }

  ghost predicate AllWithinPlan(trace: seq<Deed>, config: Config) {
    forall k :: 0 <= k < |trace| ==> WithinPlan(trace[k], config)
  }

  function Concat(parts: seq<seq<Item>>): seq<Item> {
    if parts == [] then [] else Concat(parts[..|parts| - 1]) + parts[|parts| - 1]
  }

  ghost function Parts(trace: seq<Deed>, config: Config): seq<seq<Item>>
    requires AllWithinPlan(trace, config)
  {
    seq(|trace|, k requires 0 <= k < |trace| => ItemsOfDeed(trace[k], config))
  }

  ghost function ItemsOf(trace: seq<Deed>, config: Config): seq<Item>
    requires AllWithinPlan(trace, config)
  {
    Concat(Parts(trace, config))
  }

  /** `kinds` is what encoding all items of the trace gives. */
  ghost predicate Logs(kinds: seq<Kind>, trace: seq<Deed>, config: Config, encode: Body -> Bytes) {
    AllWithinPlan(trace, config) && kinds == Encoded(ItemsOf(trace, config), encode)
  }

  lemma LogGrows(kinds: seq<Kind>, trace: seq<Deed>, deed: Deed, config: Config, encode: Body -> Bytes)
    requires Logs(kinds, trace, config, encode) && WithinPlan(deed, config)
    ensures Logs(kinds + Encoded(ItemsOfDeed(deed, config), encode), trace + [deed], config, encode)
  {
    var parts := Parts(trace, config);
    assert Parts(trace + [deed], config) == parts + [ItemsOfDeed(deed, config)];
    ConcatGrows(parts, ItemsOfDeed(deed, config));
    EncodedConcat(ItemsOf(trace, config), ItemsOfDeed(deed, config), encode);
  }

  lemma ConcatGrows(parts: seq<seq<Item>>, last: seq<Item>)
    ensures Concat(parts + [last]) == Concat(parts) + last
  {
    assert (parts + [last])[..|parts|] == parts;
  }

  lemma OneMoreItem(items: seq<Item>, n: nat, encode: Body -> Bytes)
    requires n < |items|
    ensures Encoded(items[..n + 1], encode) == Encoded(items[..n], encode) + [Kind(items[n].typeUrl, encode(items[n].body))]
  {
  }

  lemma EncodedConcat(a: seq<Item>, b: seq<Item>, encode: Body -> Bytes)
    ensures Encoded(a + b, encode) == Encoded(a, encode) + Encoded(b, encode)
  {
  }

  // ----- The engine object -----

  /** What of an event does not depend on when and after what it is recorded. */
  datatype Kind = Kind(typeUrl: string, payload: Bytes)

  function Kinds(events: seq<EventRecord>): seq<Kind> {
    seq(|events|, i requires 0 <= i < |events| => Kind(events[i].typeUrl, events[i].payload))
  }

  function Encoded(items: seq<Item>, encode: Body -> Bytes): seq<Kind> {
    seq(|items|, i requires 0 <= i < |items| => Kind(items[i].typeUrl, encode(items[i].body)))
  }

  function Hashes(events: seq<EventRecord>): seq<string> {
    seq(|events|, i requires 0 <= i < |events| => events[i].eventHash)
  }

  function EventId(runId: string, sequence: nat): string {
    "ev-" + runId + "-" + Decimal(sequence)
  }

  /** An event's id is that of no other number and of no other run. */
  lemma EventIdsDiffer(run: string, n: nat, other: string, m: nat)
    ensures EventId(run, n) == EventId(other, m) <==> run == other && n == m
  {
    if EventId(run, n) == EventId(other, m) {
      DecimalDigits(n);
      DecimalDigits(m);
      assert "ev-" + run + "-" == ("ev-" + run) + ['-'] && "ev-" + other + "-" == ("ev-" + other) + ['-'];
      LastMarkSplits('-', "ev-" + run, Decimal(n), "ev-" + other, Decimal(m));
      assert ("ev-" + run)[3..] == run && ("ev-" + other)[3..] == other;
      DecimalIsInjective(n, m);
    }
  }

  lemma ChainGrows(events: seq<EventRecord>, next: EventRecord, sha: Sha, run: string)
    requires ChainHolds(events, sha) && OfRun(events, run)
    requires next.prevEventHash == LastHash(events) && VerifyIntegrity(next, sha) && next.runId == run
    ensures ChainHolds(events + [next], sha) && OfRun(events + [next], run) && LastHash(events + [next]) == next.eventHash
  {
    assert (events + [next])[..|events|] == events;
  }

  lemma NumbersGrow(events: seq<EventRecord>, next: EventRecord, base: nat)
    requires NumberedFrom(events, base) && next.sequence == base + |events| + 1
    ensures NumberedFrom(events + [next], base)
  {
  }

  lemma KindsGrow(events: seq<EventRecord>, next: EventRecord)
    ensures Kinds(events + [next]) == Kinds(events) + [Kind(next.typeUrl, next.payload)]
    ensures Hashes(events + [next]) == Hashes(events) + [next.eventHash]
  {
  }

  lemma SelectGrows(log: seq<EventRecord>, next: EventRecord, run: string)
    requires next.runId == run
    ensures Select(log + [next], run, 0) == Select(log, run, 0) + [next]
  {
    assert (log + [next])[..|log|] == log;
  }

  /** `events` is a chain of one run, numbered from `first`, and all that the
      store holds of it; the rest is what an engine remembers of it. */
  ghost predicate ChainedLog(events: seq<EventRecord>, run: string, sha: Sha, last: string, hashes: seq<string>,
                             first: nat, counter: nat, log: seq<EventRecord>) {
    && ChainHolds(events, sha) && OfRun(events, run)
    && last == LastHash(events) && hashes == Hashes(events)
    && first > 0 && NumberedFrom(events, first - 1) && counter == first + |events|
    && Select(log, run, 0) == events
  }

  lemma ChainedGrows(events: seq<EventRecord>, run: string, sha: Sha, last: string, hashes: seq<string>,
                     first: nat, counter: nat, log: seq<EventRecord>, next: EventRecord)
    requires ChainedLog(events, run, sha, last, hashes, first, counter, log)
    requires VerifyIntegrity(next, sha) && next.runId == run && next.prevEventHash == last && next.sequence == counter
    ensures ChainedLog(events + [next], run, sha, next.eventHash, hashes + [next.eventHash], first, counter + 1, log + [next])
  {
    ChainGrows(events, next, sha, run);
    NumbersGrow(events, next, first - 1);
    KindsGrow(events, next);
    SelectGrows(log, next, run);
  }

  class OrchestrationEngine {
    const store: EventStore
    const runId: string
    const config: Config
    /** Serialization of a payload, and a tool call's digest. */
    const encode: Body -> Bytes
    const actionDigest: StepType -> string
    const firstSequence: nat
    var sequenceCounter: nat
    var lastEventHash: string
    var recordedEventHashes: seq<string>
    /** Everything this engine has recorded, and what it was recorded for. */
    ghost var recorded: seq<EventRecord>
    ghost var trace: seq<Deed>

    /** The log is a chain of this run, and what the store holds of it. */
    ghost predicate Chained()
      reads this, store
    {
      && firstSequence >= FIRST_EVENT_SEQUENCE
      && ChainedLog(recorded, runId, store.sha, lastEventHash, recordedEventHashes, firstSequence, sequenceCounter, store.log)
    }

    ghost predicate Valid()
      reads this, store
    {
      && Chained()
      && Logs(Kinds(recorded), trace, config, encode)
      && forall k :: 0 <= k < |trace| && trace[k].Stepped? ==> trace[k].digest == actionDigest(trace[k].step)
    }

    /** `new` followed by `continuing_at(next)`, for a run that has no events yet. */
    constructor (store: EventStore, runId: string, config: Config, encode: Body -> Bytes, actionDigest: StepType -> string, next: nat)
      requires Select(store.log, runId, 0) == []
      ensures Valid() && recorded == [] && trace == []
      ensures this.store == store && this.runId == runId && this.config == config
      ensures this.encode == encode && this.actionDigest == actionDigest
      ensures firstSequence == if next < FIRST_EVENT_SEQUENCE then FIRST_EVENT_SEQUENCE else next
    {
      this.store := store;
      this.runId := runId;
      this.config := config;
      this.encode := encode;
      this.actionDigest := actionDigest;
      firstSequence := if next < FIRST_EVENT_SEQUENCE then FIRST_EVENT_SEQUENCE else next;
      sequenceCounter := if next < FIRST_EVENT_SEQUENCE then FIRST_EVENT_SEQUENCE else next;
      lastEventHash := NULL_HASH;
      recordedEventHashes := [];
      recorded, trace := [], [];
    }

    /** Records one event with the next number, chained to the last one. A store
        that refuses it leaves the engine as it was. */
    method RecordEvent(item: Item, nowMs: nat) returns (ok: bool)
      requires Valid()
      modifies this, store
      ensures Valid()
      ensures var event := NewRecord(EventId(runId, old(sequenceCounter)), runId, old(sequenceCounter), item.typeUrl, nowMs,
                                     encode(item.body), old(lastEventHash), store.sha);
              && (ok <==> old(store.Accepts(event)))
              && recorded == (if ok then old(recorded) + [event] else old(recorded))
              && store.log == (if ok then old(store.log) + [event] else old(store.log))
      ensures trace == if ok then old(trace) + [Noted(item)] else old(trace)
    {
      ok := Append(item, nowMs);
      if ok {
        LogGrows(Kinds(old(recorded)), trace, Noted(item), config, encode);
        assert Encoded([item], encode) == [Kind(item.typeUrl, encode(item.body))];
        trace := trace + [Noted(item)];
      }
    }

    method Append(item: Item, nowMs: nat) returns (ok: bool)
      requires Chained()
      modifies this, store
      ensures Chained() && trace == old(trace)
      ensures var event := NewRecord(EventId(runId, old(sequenceCounter)), runId, old(sequenceCounter), item.typeUrl, nowMs,
                                     encode(item.body), old(lastEventHash), store.sha);
              && (ok <==> old(store.Accepts(event)))
              && recorded == (if ok then old(recorded) + [event] else old(recorded))
              && store.log == (if ok then old(store.log) + [event] else old(store.log))
      ensures ok ==> Kinds(recorded) == Kinds(old(recorded)) + [Kind(item.typeUrl, encode(item.body))]
    {
      var event := NewRecord(EventId(runId, sequenceCounter), runId, sequenceCounter, item.typeUrl, nowMs,
                             encode(item.body), lastEventHash, store.sha);
      ok := store.AppendEvent(event);
      if !ok {
        return;
      }
      ChainedGrows(old(recorded), runId, store.sha, lastEventHash, recordedEventHashes, firstSequence, sequenceCounter,
                   old(store.log), event);
      KindsGrow(old(recorded), event);
      lastEventHash := event.eventHash;
      recordedEventHashes := recordedEventHashes + [event.eventHash];
      sequenceCounter := sequenceCounter + 1;
      recorded := recorded + [event];
    }

    /** The plan's items recorded so far. */
    ghost predicate RecordedSoFar(before: seq<EventRecord>, plan: Plan, n: nat)
      reads this
    {
      n <= |plan.items| && Kinds(recorded) == Kinds(before) + Encoded(plan.items[..n], encode)
    }

    /** Records the plan's next item at whatever time it is. */
    method RecordPlanned(item: Item, ghost before: seq<EventRecord>, ghost plan: Plan, ghost n: nat) returns (ok: bool)
      requires Chained() && RecordedSoFar(before, plan, n)
      requires n < |plan.items| && plan.items[n] == item
      modifies this, store
      ensures Chained() && trace == old(trace)
      ensures if ok then RecordedSoFar(before, plan, n + 1) else recorded == old(recorded)
    {
      var nowMs: nat := *;
      ok := Append(item, nowMs);
      OneMoreItem(plan.items, n, encode);
    }

    /** Records a request for approval, and its grant where the configuration
        gives it. Nothing is returned when the store refuses an event. */
    method AskAndGrant(tool: string, digest: string, asked: Option<string>, given: Option<string>, allowed: bool,
                       ghost before: seq<EventRecord>, ghost plan: Plan, ghost n: nat)
      returns (granted: Option<bool>, ghost m: nat)
      requires Chained() && RecordedSoFar(before, plan, n)
      requires n < |plan.items| && plan.items[n] == Item(APPROVAL_REQUESTED, ApprovalBody(tool, digest, asked))
      requires allowed ==>
                 n + 1 < |plan.items| && plan.items[n + 1] == Item(APPROVAL_GRANTED, ApprovalBody(tool, digest, given))
      modifies this, store
      ensures Chained() && trace == old(trace) && RecordedSoFar(before, plan, m)
      ensures match granted
              case None => m < |plan.items|
              case Some(true) => allowed && m == n + 2
              case Some(false) => !allowed && m == n + 1
    {
      m := n;
      var ok := RecordPlanned(Item(APPROVAL_REQUESTED, ApprovalBody(tool, digest, asked)), before, plan, m);
      if !ok {
        return None, m;
      }
      m := m + 1;
      if !allowed {
        return Some(false), m;
      }
      ok := RecordPlanned(Item(APPROVAL_GRANTED, ApprovalBody(tool, digest, given)), before, plan, m);
      if !ok {
        return None, m;
      }
      return Some(true), m + 1;
    }

    /** Runs a step. It records exactly the events of its plan and ends as
        planned, unless the store refuses one, which ends it there. `n` counts
        the events recorded. */
    method ExecuteTaskStep(step: StepType, world: World) returns (outcome: Outcome, ghost n: nat)
      requires Valid()
      modifies this, store
      ensures Valid() && trace == old(trace) + [Stepped(step, actionDigest(step), world, n)]
      ensures RecordedSoFar(old(recorded), PlanOf(step, actionDigest(step), config, world), n)
      ensures var plan := PlanOf(step, actionDigest(step), config, world);
              if outcome == StoreRefused then n < |plan.items| else n == |plan.items| && outcome == plan.outcome
      ensures outcome != StoreRefused ==> outcome == EndOf(step, config, world)
    {
      ghost var before := recorded;
      PlanEnds(step, actionDigest(step), config, world);
      outcome, n := RunStep(step, world);
      ghost var deed := Stepped(step, actionDigest(step), world, n);
      LogGrows(Kinds(before), trace, deed, config, encode);
      trace := trace + [deed];
    }

    method RunStep(step: StepType, world: World) returns (outcome: Outcome, ghost n: nat)
      requires Chained()
      modifies this, store
      ensures Chained() && trace == old(trace)
      ensures RecordedSoFar(old(recorded), PlanOf(step, actionDigest(step), config, world), n)
      ensures var plan := PlanOf(step, actionDigest(step), config, world);
              if outcome == StoreRefused then n < |plan.items| else n == |plan.items| && outcome == plan.outcome
    {
      ghost var before := recorded;
      var tool := ToolName(step);
      var digest := actionDigest(step);
      ghost var plan := PlanOf(step, digest, config, world);
      PlanOpens(step, digest, config, world);
      var stopped;
      stopped, n := ApproveAction(step, world, before, plan);
      if stopped.Some? {
        return stopped.value, n;
      }
      stopped, n := ApproveIsolation(step, world, before, plan, n);
      if stopped.Some? {
        return stopped.value, n;
      }
      PlanRuns(step, digest, config, world);
      outcome, n := RunTool(tool, digest, world, before, plan, n);
    }

    /** Assembles the context and asks for the action's approval, if it needs one. */
    method ApproveAction(step: StepType, world: World, ghost before: seq<EventRecord>, ghost plan: Plan)
      returns (stopped: Option<Outcome>, ghost n: nat)
      requires Chained() && before == recorded
      requires Opens(plan, step, actionDigest(step), config, world)
      modifies this, store
      ensures Chained() && trace == old(trace) && RecordedSoFar(before, plan, n)
      ensures match stopped
              case Some(StoreRefused) => n < |plan.items|
              case Some(outcome) => n == |plan.items| && outcome == plan.outcome
              case None => n == (if Mutating(step) then 3 else 1) && (Mutating(step) ==> config.autoApprove)
    {
      n := 0;
      assert Encoded(plan.items[..0], encode) == [];
      assert Kinds(before) + [] == Kinds(before);
      var ok := RecordPlanned(Item(CONTEXT_ASSEMBLED, ContextBody(world.context)), before, plan, n);
      if !ok {
        return Some(StoreRefused), n;
      }
      n := n + 1;
      if Mutating(step) {
        var granted;
        granted, n := AskAndGrant(ToolName(step), actionDigest(step), None, None, config.autoApprove, before, plan, n);
        if granted.None? {
          return Some(StoreRefused), n;
        }
        if !granted.value {
          return Some(NeedsApproval), n;
        }
      }
      return None, n;
    }

    /** Isolation needs its own approval when a command cannot be sandboxed. */
    method ApproveIsolation(step: StepType, world: World, ghost before: seq<EventRecord>, ghost plan: Plan, ghost m: nat)
      returns (stopped: Option<Outcome>, ghost n: nat)
      requires Chained() && plan == PlanOf(step, actionDigest(step), config, world)
      requires RecordedSoFar(before, plan, m) && m == (if Mutating(step) then 3 else 1) && (Mutating(step) ==> config.autoApprove)
      modifies this, store
      ensures Chained() && trace == old(trace) && RecordedSoFar(before, plan, n)
      ensures match stopped
              case Some(StoreRefused) => n < |plan.items|
              case Some(outcome) => n == |plan.items| && outcome == plan.outcome
              case None => n == StartIndex(step, config, world) && (Unconfined(step, config, world) ==> config.allowUnsandboxed)
    {
      n := m;
      var tool := ToolName(step);
      if tool == "run_command" && config.spawnsProcesses {
        if !world.sandbox {
          var granted;
          granted, n := AskAndGrant(tool, actionDigest(step), Some("sandbox_unavailable"), Some("unsandboxed_execution_approved"),
                                    config.allowUnsandboxed, before, plan, n);
          if granted.None? {
            return Some(StoreRefused), n;
          }
          if !granted.value {
            return Some(NeedsUnsandboxedApproval), n;
          }
        }
      }
      return None, n;
    }

    /** Records the start of the tool, runs it, and records what it returned. */
    method RunTool(tool: string, digest: string, world: World, ghost before: seq<EventRecord>, ghost plan: Plan, ghost n: nat)
      returns (outcome: Outcome, ghost m: nat)
      requires Chained() && RecordedSoFar(before, plan, n)
      requires Runs(plan, n, tool, digest, world)
      modifies this, store
      ensures Chained() && trace == old(trace) && RecordedSoFar(before, plan, m)
      ensures if outcome == StoreRefused then m < |plan.items| else m == |plan.items| && outcome == plan.outcome
    {
      m := n;
      var ok := RecordPlanned(Item(TOOL_STARTED, StartedBody(tool, digest)), before, plan, m);
      if !ok {
        return StoreRefused, m;
      }
      m := m + 1;
      if world.tool.None? {
        return ToolFailed, m;
      }
      var result := world.tool.value;
      ok := RecordPlanned(Item(TOOL_FINISHED, FinishedBody(tool, result.success, result.preimageHash, result.postimageHash)),
                          before, plan, m);
      if !ok {
        return StoreRefused, m;
      }
      return Finished(result), m + 1;
    }
  }

}
