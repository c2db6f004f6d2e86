/** What holds of the log of an engine after any sequence of steps
    (crates/orchestration/src/engine.rs, crates/store/src/lib.rs). */
module EngineTrace {
  import opened Common
  import opened EventStores
  import opened EventChain
  import opened Engines

  // ----- Which deed an event was recorded for -----

  /** How many events were recorded before the `k`th deed. */
  ghost function Start(trace: seq<Deed>, config: Config, k: nat): nat
    requires AllWithinPlan(trace, config) && k <= |trace|
  {
    |Concat(Parts(trace, config)[..k])|
  }

  lemma StartOfNext(trace: seq<Deed>, config: Config, k: nat)
    requires AllWithinPlan(trace, config) && k < |trace|
    ensures Start(trace, config, k + 1) == Start(trace, config, k) + |ItemsOfDeed(trace[k], config)|
    ensures Start(trace, config, k + 1) <= |ItemsOf(trace, config)|
  {
    var parts := Parts(trace, config);
    assert parts[..k + 1][..k] == parts[..k];
    StartWithin(parts, k + 1);
  }

  lemma {:induction false} StartWithin(parts: seq<seq<Item>>, k: nat)
    requires k <= |parts|
    ensures |Concat(parts[..k])| <= |Concat(parts)|
    decreases |parts|
  {
    if k < |parts| {
      var front := parts[..|parts| - 1];
      assert front[..k] == parts[..k];
      StartWithin(front, k);
    } else {
      assert parts[..k] == parts;
    }
  }

  lemma {:induction false} ItemAt(parts: seq<seq<Item>>, k: nat, m: nat)
    requires k < |parts| && m < |parts[k]|
    ensures |Concat(parts[..k])| + m < |Concat(parts)|
    ensures Concat(parts)[|Concat(parts[..k])| + m] == parts[k][m]
    decreases |parts|
  {
    var front := parts[..|parts| - 1];
    if k < |front| {
      assert front[..k] == parts[..k];
      ItemAt(front, k, m);
    } else {
      assert parts[..k] == front;
    }
  }

  lemma {:induction false} PartOf(parts: seq<seq<Item>>, i: nat) returns (k: nat)
    requires i < |Concat(parts)|
    ensures k < |parts| && |Concat(parts[..k])| <= i < |Concat(parts[..k])| + |parts[k]|
    decreases |parts|
  {
    var front := parts[..|parts| - 1];
    if i < |Concat(front)| {
      k := PartOf(front, i);
      assert front[..k] == parts[..k];
    } else {
      k := |parts| - 1;
      assert parts[..k] == front;
    }
  }

  /** An event as it was recorded. */
  predicate Records(event: EventRecord, item: Item, encode: Body -> Bytes) {
    event.typeUrl == item.typeUrl && event.payload == encode(item.body)
  }

  lemma EventOfDeed(events: seq<EventRecord>, trace: seq<Deed>, config: Config, encode: Body -> Bytes, k: nat, m: nat)
    requires Logs(Kinds(events), trace, config, encode) && k < |trace| && m < |ItemsOfDeed(trace[k], config)|
    ensures Start(trace, config, k) + m < |events|
    ensures Records(events[Start(trace, config, k) + m], ItemsOfDeed(trace[k], config)[m], encode)
  {
    ItemAt(Parts(trace, config), k, m);
    KindAt(events, ItemsOf(trace, config), encode, Start(trace, config, k) + m);
  }

  lemma KindAt(events: seq<EventRecord>, items: seq<Item>, encode: Body -> Bytes, at: nat)
    requires Kinds(events) == Encoded(items, encode) && at < |items|
    ensures at < |events| && Records(events[at], items[at], encode)
  {
    assert |events| == |Kinds(events)| && Kinds(events)[at] == Encoded(items, encode)[at];
  }

  /** The events from `from` on record the items, one each. */
  predicate RecordsAll(events: seq<EventRecord>, from: nat, items: seq<Item>, encode: Body -> Bytes) {
    from + |items| <= |events| && forall m :: 0 <= m < |items| ==> Records(events[from + m], items[m], encode)
  }

  lemma EventsOfDeed(events: seq<EventRecord>, trace: seq<Deed>, config: Config, encode: Body -> Bytes, k: nat)
    requires Logs(Kinds(events), trace, config, encode) && k < |trace|
    ensures Start(trace, config, k + 1) == Start(trace, config, k) + |ItemsOfDeed(trace[k], config)|
    ensures RecordsAll(events, Start(trace, config, k), ItemsOfDeed(trace[k], config), encode)
  {
    StartOfNext(trace, config, k);
    assert |events| == |Kinds(events)| == |ItemsOf(trace, config)|;
    forall m | 0 <= m < |ItemsOfDeed(trace[k], config)|
      ensures Records(events[Start(trace, config, k) + m], ItemsOfDeed(trace[k], config)[m], encode)
    {
      EventOfDeed(events, trace, config, encode, k, m);
    }
  }

  // ----- Approval before action -----

  predicate Asks(event: EventRecord, tool: string, digest: string, reason: Option<string>, encode: Body -> Bytes) {
    Records(event, Item(APPROVAL_REQUESTED, ApprovalBody(tool, digest, reason)), encode)
  }

  predicate Grants(event: EventRecord, tool: string, digest: string, reason: Option<string>, encode: Body -> Bytes) {
    Records(event, Item(APPROVAL_GRANTED, ApprovalBody(tool, digest, reason)), encode)
  }

  /** The event at `r` asks for an action, and the next one, before `i`, grants
      that very action. */
  predicate GrantedAt(events: seq<EventRecord>, r: nat, i: nat, tool: string, digest: string,
                      asked: Option<string>, given: Option<string>, encode: Body -> Bytes) {
    r + 1 < i <= |events| && Asks(events[r], tool, digest, asked, encode) && Grants(events[r + 1], tool, digest, given, encode)
  }

  /** The tool that a step's start and approvals must name. */
  predicate ToolOf(step: StepType, tool: string) {
    match step
    case InspectWorkspace => tool == "list_dir"
    case ProposeEdit(_, _) => tool == "write_file"
    case RunVerification(_) => tool == "run_command"
  }

  /** The tool's start at `i`, in a step whose events begin at `from`: unless it
      only looks at the workspace, the configuration approves actions, and this
      very one was asked for and granted in that step; a command that starts
      processes where no sandbox is available may run unsandboxed, and was asked
      for and granted once more; and no request of the step was left open. */
  ghost predicate ApprovedBefore(events: seq<EventRecord>, from: nat, i: nat, deed: Deed, config: Config, encode: Body -> Bytes)
    requires deed.Stepped? && i < |events|
  {
    var tool, digest := ToolName(deed.step), deed.digest;
    && ToolOf(deed.step, tool)
    && Records(events[i], Item(TOOL_STARTED, StartedBody(tool, digest)), encode)
    && (!deed.step.InspectWorkspace? ==>
          && config.autoApprove
          && exists r: nat :: from <= r && GrantedAt(events, r, i, tool, digest, None, None, encode))
    && (deed.step.RunVerification? && config.spawnsProcesses && !deed.world.sandbox ==>
          && config.allowUnsandboxed
          && exists r: nat :: from <= r && GrantedAt(events, r, i, tool, digest, Some("sandbox_unavailable"),
                                                     Some("unsandboxed_execution_approved"), encode))
    && (forall r: nat :: from <= r < i && events[r].typeUrl == APPROVAL_REQUESTED ==>
          exists asked, given :: GrantedAt(events, r, i, tool, digest, asked, given, encode))
  }

  /** Only steps record that a tool started. */
  ghost predicate OnlyStepsStartTools(trace: seq<Deed>) {
    forall k :: 0 <= k < |trace| && trace[k].Noted? ==> trace[k].item.typeUrl != TOOL_STARTED
  }

  /** In the plan of a step a tool's start has one place, and what precedes it
      is the context and answered requests. */
  lemma PlanBeforeStart(step: StepType, digest: string, config: Config, world: World, m: nat)
    requires m < |PlanOf(step, digest, config, world).items|
    requires PlanOf(step, digest, config, world).items[m].typeUrl == TOOL_STARTED
    ensures var items, tool := PlanOf(step, digest, config, world).items, ToolName(step);
            && m == StartIndex(step, config, world)
            && items[m] == Item(TOOL_STARTED, StartedBody(tool, digest))
            && items[0].typeUrl == CONTEXT_ASSEMBLED
            && (Mutating(step) ==>
                  && config.autoApprove
                  && items[1] == Item(APPROVAL_REQUESTED, ApprovalBody(tool, digest, None))
                  && items[2] == Item(APPROVAL_GRANTED, ApprovalBody(tool, digest, None)))
            && (Unconfined(step, config, world) ==>
                  && config.allowUnsandboxed
                  && items[3] == Item(APPROVAL_REQUESTED, ApprovalBody(tool, digest, Some("sandbox_unavailable")))
                  && items[4] == Item(APPROVAL_GRANTED, ApprovalBody(tool, digest, Some("unsandboxed_execution_approved"))))
  {
  }

  lemma StartOfStepIsApproved(events: seq<EventRecord>, trace: seq<Deed>, config: Config, encode: Body -> Bytes, k: nat, i: nat)
    requires Logs(Kinds(events), trace, config, encode) && k < |trace| && trace[k].Stepped?
    requires Start(trace, config, k) <= i < Start(trace, config, k + 1) <= |events|
    requires events[i].typeUrl == TOOL_STARTED
    ensures ApprovedBefore(events, Start(trace, config, k), i, trace[k], config, encode)
  {
    var deed, from := trace[k], Start(trace, config, k);
    var tool, digest := ToolName(deed.step), deed.digest;
    EventsOfDeed(events, trace, config, encode, k);
    var items := ItemsOfDeed(deed, config);
    var m := i - from;
    assert Records(events[from + m], items[m], encode);
    PlanBeforeStart(deed.step, digest, config, deed.world, m);
    assert Records(events[from], items[0], encode);
    if Mutating(deed.step) {
      assert Records(events[from + 1], items[1], encode) && Records(events[from + 2], items[2], encode);
      assert GrantedAt(events, from + 1, i, tool, digest, None, None, encode);
    }
    if Unconfined(deed.step, config, deed.world) {
      assert Records(events[from + 3], items[3], encode) && Records(events[from + 4], items[4], encode);
      assert GrantedAt(events, from + 3, i, tool, digest, Some("sandbox_unavailable"),
                       Some("unsandboxed_execution_approved"), encode);
    }
    forall r: nat | from <= r < i && events[r].typeUrl == APPROVAL_REQUESTED
      ensures exists asked, given :: GrantedAt(events, r, i, tool, digest, asked, given, encode)
    {
      assert r == from || r == from + 1 || r == from + 2 || r == from + 3 || r == from + 4;
    }
  }

  /** However many steps an engine has run, whether they ended as planned or
      the store cut them short: every tool start in its log belongs to a step
      in which the same action was asked for and granted before, if the tool
      changes anything, and no earlier request of that step was left open. */
  lemma EveryStartWasApproved(engine: OrchestrationEngine, i: nat)
    requires engine.Valid() && OnlyStepsStartTools(engine.trace)
    requires i < |engine.recorded| && engine.recorded[i].typeUrl == TOOL_STARTED
    ensures exists k: nat :: k < |engine.trace| && engine.trace[k].Stepped?
              && Start(engine.trace, engine.config, k) <= i < Start(engine.trace, engine.config, k + 1)
              && engine.trace[k].digest == engine.actionDigest(engine.trace[k].step)
              && ApprovedBefore(engine.recorded, Start(engine.trace, engine.config, k), i, engine.trace[k],
                                engine.config, engine.encode)
  {
    var events, trace, config := engine.recorded, engine.trace, engine.config;
    assert |events| == |Kinds(events)|;
    var k := PartOf(Parts(trace, config), i);
    EventsOfDeed(events, trace, config, engine.encode, k);
    assert Records(events[i], ItemsOfDeed(trace[k], config)[i - Start(trace, config, k)], engine.encode);
    StartOfStepIsApproved(events, trace, config, engine.encode, k, i);
  }

  /** The finish at `i` of a step whose events begin at `from`: the event before
      it is the start of the same action, and it records what the tool returned. */
  ghost predicate FinishesAt(events: seq<EventRecord>, from: nat, i: nat, deed: Deed, encode: Body -> Bytes)
    requires deed.Stepped?
  {
    && from < i < |events| && deed.world.tool.Some?
    && var tool, result := ToolName(deed.step), deed.world.tool.value;
       && Records(events[i - 1], Item(TOOL_STARTED, StartedBody(tool, deed.digest)), encode)
       && Records(events[i], Item(TOOL_FINISHED, FinishedBody(tool, result.success, result.preimageHash, result.postimageHash)), encode)
  }

  lemma PlanBeforeFinish(step: StepType, digest: string, config: Config, world: World, m: nat)
    requires m < |PlanOf(step, digest, config, world).items|
    requires PlanOf(step, digest, config, world).items[m].typeUrl == TOOL_FINISHED
    ensures var items, tool := PlanOf(step, digest, config, world).items, ToolName(step);
            && m > 0 && world.tool.Some?
            && items[m - 1] == Item(TOOL_STARTED, StartedBody(tool, digest))
            && items[m] == Item(TOOL_FINISHED, FinishedBody(tool, world.tool.value.success, world.tool.value.preimageHash,
                                                            world.tool.value.postimageHash))
  {
  }

  lemma FinishOfStep(events: seq<EventRecord>, trace: seq<Deed>, config: Config, encode: Body -> Bytes, k: nat, i: nat)
    requires Logs(Kinds(events), trace, config, encode) && k < |trace| && trace[k].Stepped?
    requires Start(trace, config, k) <= i < Start(trace, config, k + 1) <= |events|
    requires events[i].typeUrl == TOOL_FINISHED
    ensures FinishesAt(events, Start(trace, config, k), i, trace[k], encode)
  {
    EventsOfDeed(events, trace, config, encode, k);
    var deed, items, from := trace[k], ItemsOfDeed(trace[k], config), Start(trace, config, k);
    var m := i - from;
    assert Records(events[from + m], items[m], encode);
    PlanBeforeFinish(deed.step, deed.digest, config, deed.world, m);
    assert Records(events[from + (m - 1)], items[m - 1], encode);
  }

  ghost predicate OnlyStepsFinishTools(trace: seq<Deed>) {
    forall k :: 0 <= k < |trace| && trace[k].Noted? ==> trace[k].item.typeUrl != TOOL_FINISHED
  }

  /** In the log of an engine that ran any steps, every tool finish follows the
      start of the same action and records what that tool returned. */
  lemma EveryFinishFollowsItsStart(engine: OrchestrationEngine, i: nat)
    requires engine.Valid() && OnlyStepsFinishTools(engine.trace)
    requires i < |engine.recorded| && engine.recorded[i].typeUrl == TOOL_FINISHED
    ensures exists k: nat :: k < |engine.trace| && engine.trace[k].Stepped?
              && Start(engine.trace, engine.config, k) <= i < Start(engine.trace, engine.config, k + 1)
              && FinishesAt(engine.recorded, Start(engine.trace, engine.config, k), i, engine.trace[k], engine.encode)
  {
    var events, trace, config := engine.recorded, engine.trace, engine.config;
    assert |events| == |Kinds(events)|;
    var k := PartOf(Parts(trace, config), i);
    EventsOfDeed(events, trace, config, engine.encode, k);
    assert Records(events[i], ItemsOfDeed(trace[k], config)[i - Start(trace, config, k)], engine.encode);
    FinishOfStep(events, trace, config, engine.encode, k, i);
  }

  // ----- Replay names where a step stopped -----

  lemma MissingCharacter(s: string, part: string, c: char)
    requires c in part && c !in s
    ensures !Contains(s, part)
  {
    var i :| 0 <= i < |part| && part[i] == c;
    assert i < |s| ==> s[i] in s;
    if s == [] {
    } else {
      MissingCharacter(s[1..], part, c);
    }
  }

  lemma ContainsAfter(s: string, front: string, part: string)
    requires s == front + part
    ensures Contains(s, part)
  {
    if front == [] {
    } else {
      assert s[1..] == front[1..] + part;
      ContainsAfter(s[1..], front[1..], part);
    }
  }

  lemma ReadAsNothing(typeUrl: string, state: RunState, payload: Bytes)
    requires 'T' !in typeUrl && 'R' !in typeUrl
    ensures Transition(state, typeUrl, payload) == state
  {
    MissingCharacter(typeUrl, "ToolProposed", 'T');
    MissingCharacter(typeUrl, "ApprovalRequested", 'R');
    MissingCharacter(typeUrl, "ToolStarted", 'T');
    MissingCharacter(typeUrl, "ToolFinished", 'T');
    MissingCharacter(typeUrl, "RunStateChanged", 'R');
  }

  lemma ReadAsRequest(typeUrl: string, front: string, state: RunState, payload: Bytes)
    requires typeUrl == front + "ApprovalRequested"
    ensures Transition(state, typeUrl, payload) == WaitingForApproval
  {
    ContainsAfter(typeUrl, front, "ApprovalRequested");
  }

  lemma ReadAsStart(typeUrl: string, front: string, state: RunState, payload: Bytes)
    requires typeUrl == front + "ToolStarted" && 'P' !in typeUrl && 'A' !in typeUrl
    ensures Transition(state, typeUrl, payload) == RunningTool
  {
    MissingCharacter(typeUrl, "ToolProposed", 'P');
    MissingCharacter(typeUrl, "ApprovalRequested", 'A');
    ContainsAfter(typeUrl, front, "ToolStarted");
  }

  lemma ReadAsFinish(typeUrl: string, front: string, state: RunState, payload: Bytes)
    requires typeUrl == front + "ToolFinished" && 'P' !in typeUrl && 'A' !in typeUrl && 'S' !in typeUrl
    ensures Transition(state, typeUrl, payload) == RunningModel
  {
    MissingCharacter(typeUrl, "ToolProposed", 'P');
    MissingCharacter(typeUrl, "ApprovalRequested", 'A');
    MissingCharacter(typeUrl, "ToolStarted", 'S');
    ContainsAfter(typeUrl, front, "ToolFinished");
  }

  /** How replay reads each type of event the engine records in a step. */
  lemma StepTransition(state: RunState, typeUrl: string, payload: Bytes)
    requires typeUrl in {CONTEXT_ASSEMBLED, APPROVAL_REQUESTED, APPROVAL_GRANTED, TOOL_STARTED, TOOL_FINISHED}
    ensures Transition(state, typeUrl, payload) ==
            if typeUrl == APPROVAL_REQUESTED then WaitingForApproval
            else if typeUrl == TOOL_STARTED then RunningTool
            else if typeUrl == TOOL_FINISHED then RunningModel
            else state
  {
    if typeUrl == APPROVAL_REQUESTED {
      RequestedIsRead(typeUrl, state, payload);
    } else if typeUrl == TOOL_STARTED {
      StartedIsRead(typeUrl, state, payload);
    } else if typeUrl == TOOL_FINISHED {
      FinishedIsRead(typeUrl, state, payload);
    } else {
      OthersAreNotRead(typeUrl, state, payload);
    }
  }

  lemma RequestedIsRead(typeUrl: string, state: RunState, payload: Bytes)
    requires typeUrl == APPROVAL_REQUESTED
    ensures Transition(state, typeUrl, payload) == WaitingForApproval
  {
    ReadAsRequest(typeUrl, "vitna.v1.", state, payload);
  }

  lemma StartedIsRead(typeUrl: string, state: RunState, payload: Bytes)
    requires typeUrl == TOOL_STARTED
    ensures Transition(state, typeUrl, payload) == RunningTool
  {
    ReadAsStart(typeUrl, "vitna.v1.", state, payload);
  }

  lemma FinishedIsRead(typeUrl: string, state: RunState, payload: Bytes)
    requires typeUrl == TOOL_FINISHED
    ensures Transition(state, typeUrl, payload) == RunningModel
  {
    ReadAsFinish(typeUrl, "vitna.v1.", state, payload);
  }

  lemma OthersAreNotRead(typeUrl: string, state: RunState, payload: Bytes)
    requires typeUrl == CONTEXT_ASSEMBLED || typeUrl == APPROVAL_GRANTED
    ensures Transition(state, typeUrl, payload) == state
  {
    ReadAsNothing(typeUrl, state, payload);
  }

  /** An event that reports a change of state is read by the first of three words
      its payload holds; by none of them, it changes nothing. */
  lemma StateChangeIsRead(typeUrl: string, front: string, state: RunState, payload: Bytes)
    requires typeUrl == front + "RunStateChanged" && 'T' !in typeUrl && 'A' !in typeUrl
    ensures (exists x, y :: payload == x + "completed" + y) ==> Transition(state, typeUrl, payload) == Completed
    ensures (forall x, y :: payload != x + "completed" + y) && (exists x, y :: payload == x + "failed" + y) ==>
              Transition(state, typeUrl, payload) == RunState.Failed
    ensures (forall x, y :: payload != x + "completed" + y) && (forall x, y :: payload != x + "failed" + y) &&
            (exists x, y :: payload == x + "needs_reconciliation" + y) ==>
              Transition(state, typeUrl, payload) == NeedsReconciliation
    ensures (forall x, y :: payload != x + "completed" + y) && (forall x, y :: payload != x + "failed" + y) &&
            (forall x, y :: payload != x + "needs_reconciliation" + y) ==>
              Transition(state, typeUrl, payload) == state
  {
    MissingCharacter(typeUrl, "ToolProposed", 'T');
    MissingCharacter(typeUrl, "ApprovalRequested", 'A');
    MissingCharacter(typeUrl, "ToolStarted", 'T');
    MissingCharacter(typeUrl, "ToolFinished", 'T');
    ContainsAfter(typeUrl, front, "RunStateChanged");
    ContainsExactlyWhen(payload, "completed");
    ContainsExactlyWhen(payload, "failed");
    ContainsExactlyWhen(payload, "needs_reconciliation");
  }

  /** A proposed tool waits for approval. */
  lemma ProposalIsRead(typeUrl: string, front: string, state: RunState, payload: Bytes)
    requires typeUrl == front + "ToolProposed"
    ensures Transition(state, typeUrl, payload) == WaitingForApproval
  {
    ContainsAfter(typeUrl, front, "ToolProposed");
  }

  function StateAfter(state: RunState, kinds: seq<Kind>): RunState {
    if kinds == [] then state
    else
      var last := kinds[|kinds| - 1];
      Transition(StateAfter(state, kinds[..|kinds| - 1]), last.typeUrl, last.payload)
  }

  lemma {:induction false} StateOfContinues(before: seq<EventRecord>, events: seq<EventRecord>, kinds: seq<Kind>)
    requires Kinds(events) == Kinds(before) + kinds
    ensures StateOf(events) == StateAfter(StateOf(before), kinds)
    decreases |kinds|
  {
    assert |events| == |Kinds(events)| == |before| + |kinds|;
    if kinds == [] {
      assert Kinds(events) == Kinds(before);
      SameKindsSameState(before, events);
    } else {
      var front := events[..|events| - 1];
      assert Kinds(front) == Kinds(events)[..|events| - 1];
      assert Kinds(front) == Kinds(before) + kinds[..|kinds| - 1];
      StateOfContinues(before, front, kinds[..|kinds| - 1]);
      assert Kinds(events)[|events| - 1] == kinds[|kinds| - 1];
    }
  }

  lemma {:induction false} SameKindsSameState(a: seq<EventRecord>, b: seq<EventRecord>)
    requires Kinds(a) == Kinds(b)
    ensures StateOf(a) == StateOf(b)
    decreases |a|
  {
    assert |a| == |Kinds(a)| == |Kinds(b)| == |b|;
    if a == [] {
    } else {
      var n := |a| - 1;
      assert Kinds(a[..n]) == Kinds(a)[..n] && Kinds(b[..n]) == Kinds(b)[..n];
      SameKindsSameState(a[..n], b[..n]);
      assert Kinds(a)[n] == Kinds(b)[n];
    }
  }

  /** The state the last request, start or finish among a step's items names;
      before the first of them, the state the step found. */
  function Named(items: seq<Item>, before: RunState): RunState {
    if items == [] then before
    else
      var last := items[|items| - 1].typeUrl;
      if last == APPROVAL_REQUESTED then WaitingForApproval
      else if last == TOOL_STARTED then RunningTool
      else if last == TOOL_FINISHED then RunningModel
      else Named(items[..|items| - 1], before)
  }

  predicate OfStep(item: Item) {
    item.typeUrl in {CONTEXT_ASSEMBLED, APPROVAL_REQUESTED, APPROVAL_GRANTED, TOOL_STARTED, TOOL_FINISHED}
  }

  lemma {:induction false} StateAfterItems(state: RunState, items: seq<Item>, encode: Body -> Bytes)
    requires AllOfStep(items)
    ensures StateAfter(state, Encoded(items, encode)) == Named(items, state)
    decreases |items|
  {
    if items == [] {
    } else {
      var n := |items| - 1;
      var kinds := Encoded(items, encode);
      StateAfterItems(state, items[..n], encode);
      assert kinds[..n] == Encoded(items[..n], encode);
      assert OfStep(items[n]);
      StepTransition(StateAfter(state, kinds[..n]), kinds[n].typeUrl, kinds[n].payload);
    }
  }

  lemma PlanItemsAreOfStep(step: StepType, digest: string, config: Config, world: World, m: nat)
    requires m < |PlanOf(step, digest, config, world).items|
    ensures OfStep(PlanOf(step, digest, config, world).items[m])
  {
  }

  /** Wherever a step of an engine's log was left, after its first `m` events:
      replaying up to there names the state given by the last request, start or
      finish among them. */
  lemma ReplayNamesWhereItStopped(events: seq<EventRecord>, trace: seq<Deed>, config: Config, encode: Body -> Bytes, k: nat, m: nat)
    requires Logs(Kinds(events), trace, config, encode) && k < |trace| && trace[k].Stepped?
    requires m <= |ItemsOfDeed(trace[k], config)|
    ensures Start(trace, config, k) + m <= |events|
    ensures StateOf(events[..Start(trace, config, k) + m]) ==
            Named(ItemsOfDeed(trace[k], config)[..m], StateOf(events[..Start(trace, config, k)]))
  {
    var from, items := Start(trace, config, k), ItemsOfDeed(trace[k], config);
    StepItems(trace[k], config);
    EventsOfDeed(events, trace, config, encode, k);
    PrefixIsNamed(events, from, items, m, encode);
  }

  predicate AllOfStep(items: seq<Item>) {
    forall m :: 0 <= m < |items| ==> OfStep(items[m])
  }

  lemma StepItems(deed: Deed, config: Config)
    requires deed.Stepped? && WithinPlan(deed, config)
    ensures |ItemsOfDeed(deed, config)| == deed.n && AllOfStep(ItemsOfDeed(deed, config))
  {
    forall j | 0 <= j < deed.n
      ensures OfStep(ItemsOfDeed(deed, config)[j])
    {
      PlanItemsAreOfStep(deed.step, deed.digest, config, deed.world, j);
    }
  }

  lemma PrefixIsNamed(events: seq<EventRecord>, from: nat, items: seq<Item>, m: nat, encode: Body -> Bytes)
    requires RecordsAll(events, from, items, encode) && AllOfStep(items) && m <= |items|
    ensures StateOf(events[..from + m]) == Named(items[..m], StateOf(events[..from]))
  {
    assert RecordsAll(events, from, items[..m], encode) && AllOfStep(items[..m]);
    KindsOfPart(events, from, items[..m], encode);
    StateOfContinues(events[..from], events[..from + m], Encoded(items[..m], encode));
    StateAfterItems(StateOf(events[..from]), items[..m], encode);
  }

  lemma KindsOfPart(events: seq<EventRecord>, from: nat, items: seq<Item>, encode: Body -> Bytes)
    requires RecordsAll(events, from, items, encode)
    ensures Kinds(events[..from + |items|]) == Kinds(events[..from]) + Encoded(items, encode)
  {
  }

  /** A whole step ends, for replay, where its outcome says: waiting when an
      approval was refused, running the tool when the tool failed, running the
      model when it finished. */
  lemma WholeStepIsNamed(step: StepType, digest: string, config: Config, world: World, before: RunState)
    ensures var plan := PlanOf(step, digest, config, world);
            && plan.outcome != StoreRefused
            && (plan.outcome == NeedsApproval || plan.outcome == NeedsUnsandboxedApproval ==>
                  Named(plan.items, before) == WaitingForApproval)
            && (plan.outcome == ToolFailed ==> Named(plan.items, before) == RunningTool)
            && (plan.outcome.Finished? ==> Named(plan.items, before) == RunningModel)
  {
  }

  /** A step the store cut short before its first request or start leaves the
      state it found; one cut short right after a grant still waits for approval. */
  lemma CutShortStepIsNamed(step: StepType, digest: string, config: Config, world: World, m: nat, before: RunState)
    requires m <= |PlanOf(step, digest, config, world).items|
    ensures var items := PlanOf(step, digest, config, world).items;
            && (m <= 1 ==> Named(items[..m], before) == before)
            && (m > 0 && items[m - 1].typeUrl == APPROVAL_GRANTED ==> Named(items[..m], before) == WaitingForApproval)
  {
    var items := PlanOf(step, digest, config, world).items;
    GrantFollowsRequest(step, digest, config, world, m);
    if m == 1 {
      assert items[..1][..0] == [] && items[0].typeUrl == CONTEXT_ASSEMBLED;
    } else if m > 1 && items[m - 1].typeUrl == APPROVAL_GRANTED {
      NamedAfterRequest(items[..m], before);
    }
  }

  lemma GrantFollowsRequest(step: StepType, digest: string, config: Config, world: World, m: nat)
    requires m <= |PlanOf(step, digest, config, world).items|
    ensures var items := PlanOf(step, digest, config, world).items;
            m > 0 && items[m - 1].typeUrl == APPROVAL_GRANTED ==> m > 1 && items[m - 2].typeUrl == APPROVAL_REQUESTED
  {
  }

  lemma NamedAfterRequest(items: seq<Item>, before: RunState)
    requires |items| > 1 && items[|items| - 1].typeUrl == APPROVAL_GRANTED && items[|items| - 2].typeUrl == APPROVAL_REQUESTED
    ensures Named(items, before) == WaitingForApproval
  {
    var front := items[..|items| - 1];
    assert front[|front| - 1] == items[|items| - 2];
  }

  /** What the store holds of an engine's run is what the engine recorded, it
      passes every check of replay, and replay reports its last number, its
      last hash and the state it leads to. */
  lemma EngineLogReplays(engine: OrchestrationEngine)
    requires engine.Valid()
    ensures GetEvents(engine.store.log, engine.runId, 0) == engine.recorded
    ensures SummaryOf(GetEvents(engine.store.log, engine.runId, 0), engine.store.sha) ==
            RunSummary(if engine.recorded == [] then 0 else engine.sequenceCounter - 1,
                       StateOf(engine.recorded), engine.lastEventHash, |engine.recorded|)
  {
    SortedStays(engine.recorded, engine.firstSequence - 1);
    AllCheckedIsChain(engine.recorded, engine.store.sha);
    assert engine.recorded[..|engine.recorded|] == engine.recorded;
  }
}
