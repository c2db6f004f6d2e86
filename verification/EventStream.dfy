/** Streaming a session's events to a subscriber: any number of sessions record
    runs while one subscriber takes the live feed, replays the store, follows
    the feed, and re-reads the store when the bounded feed drops what it has not
    read yet (crates/daemon/src/ipc.rs, crates/daemon/src/server.rs). */
module EventStream {
  import opened Common
  import opened EventStores

  // ----- The system and its steps -----

  /** A session's one run at a time: its number read, then registered and recording. */
  datatype Task = Idle | Numbered(next: nat) | Recording(run: string, next: nat)

  datatype Session = Session(runs: seq<string>, task: Task)

  datatype Phase =
    | Connecting
    | Subscribed
    | Listing
    | Reading(runs: seq<string>)
    | Forwarding(todo: seq<EventRecord>)
    | Following
    | Deciding(event: EventRecord)
    | Closed

  /** `next` is the position in the published events that the receiver reads
      next; events are published in the order they are stored. */
  datatype Subscriber = Subscriber(session: string, resumeAfter: nat, phase: Phase, next: nat, lastSent: nat, sent: seq<EventRecord>)

  datatype System = System(log: seq<EventRecord>, sessions: map<string, Session>, capacity: nat, sub: Subscriber)

  datatype Step =
    // The daemon.
    | CreateSession(id: string)
    | ReadNumber(id: string)
    | RegisterRun(id: string, run: string)
    | Append(id: string, event: EventRecord)
    | EndRun(id: string)
    | AppendElsewhere(event: EventRecord)
    // The subscriber.
    | Subscribe
    | CheckSession
    | ListRuns
    | ReadStore
    | ForwardNext(delivered: bool)
    | Receive
    | Lag
    | Decide(delivered: bool)

  predicate FreshRun(s: System, run: string) {
    && (forall id <- s.sessions.Keys :: run !in s.sessions[id].runs)
    && (forall i :: 0 <= i < |s.log| ==> s.log[i].runId != run)
  }

  predicate Enabled(s: System, step: Step) {
    match step
    case CreateSession(id) => id !in s.sessions
    case ReadNumber(id) => id in s.sessions && s.sessions[id].task.Idle?
    case RegisterRun(id, run) => id in s.sessions && s.sessions[id].task.Numbered? && FreshRun(s, run)
    case Append(id, event) =>
      && id in s.sessions && s.sessions[id].task.Recording?
      && event.runId == s.sessions[id].task.run && event.sequence == s.sessions[id].task.next
      && event.sequence <= I64_MAX
    case EndRun(id) => id in s.sessions
    case AppendElsewhere(event) => forall id <- s.sessions.Keys :: event.runId !in s.sessions[id].runs
    case Subscribe => s.sub.phase.Connecting?
    case CheckSession => s.sub.phase.Subscribed?
    case ListRuns => s.sub.phase.Listing?
    case ReadStore => s.sub.phase.Reading?
    case ForwardNext(_) => s.sub.phase.Forwarding?
    case Receive => s.sub.phase.Following? && s.sub.next < |s.log| <= s.sub.next + s.capacity
    case Lag => s.sub.phase.Following? && |s.log| > s.sub.next + s.capacity
    case Decide(_) => s.sub.phase.Deciding?
  }

  function WithTask(s: System, id: string, task: Task): System
    requires id in s.sessions
  {
    s.(sessions := s.sessions[id := s.sessions[id].(task := task)])
  }

  /** Sends one event, unless the connection is gone. */
  function Deliver(sub: Subscriber, event: EventRecord, delivered: bool, then_: Phase): Subscriber {
    if delivered then sub.(sent := sub.sent + [event], lastSent := event.sequence, phase := then_)
    else sub.(phase := Closed)
  }

  function Take(s: System, step: Step): System
    requires Enabled(s, step)
  {
    match step
    case CreateSession(id) => s.(sessions := s.sessions[id := Session([], Idle)])
    case ReadNumber(id) => WithTask(s, id, Numbered(NextSessionSequence(s.log, s.sessions[id].runs)))
    case RegisterRun(id, run) =>
      var session := s.sessions[id];
      // The engine never numbers from below the first number.
      var next := if session.task.next < FIRST_EVENT_SEQUENCE then FIRST_EVENT_SEQUENCE else session.task.next;
      s.(sessions := s.sessions[id := Session(session.runs + [run], Recording(run, next))])
    case Append(id, event) =>
      WithTask(s.(log := s.log + [event]), id, Recording(event.runId, event.sequence + 1))
    case EndRun(id) => WithTask(s, id, Idle)
    case AppendElsewhere(event) => s.(log := s.log + [event])
    case Subscribe => s.(sub := s.sub.(next := |s.log|, phase := Subscribed))
    case CheckSession =>
      s.(sub := if s.sub.session in s.sessions then s.sub.(lastSent := s.sub.resumeAfter, phase := Listing)
                else s.sub.(phase := Closed))
    case ListRuns =>
      s.(sub := if s.sub.session in s.sessions then s.sub.(phase := Reading(s.sessions[s.sub.session].runs))
                else s.sub.(phase := Closed))
    case ReadStore =>
      s.(sub := s.sub.(phase := Forwarding(SessionEventsAfter(s.log, s.sub.phase.runs, s.sub.lastSent))))
    case ForwardNext(delivered) =>
      var todo := s.sub.phase.todo;
      s.(sub := if todo == [] then s.sub.(phase := Following)
                else if todo[0].sequence <= s.sub.lastSent then s.sub.(phase := Forwarding(todo[1..]))
                else Deliver(s.sub, todo[0], delivered, Forwarding(todo[1..])))
    case Receive => s.(sub := s.sub.(phase := Deciding(s.log[s.sub.next]), next := s.sub.next + 1))
    case Lag => s.(sub := s.sub.(phase := Listing, next := |s.log| - s.capacity))
    case Decide(delivered) =>
      var event := s.sub.phase.event;
      var belongs := s.sub.session in s.sessions && event.runId in s.sessions[s.sub.session].runs;
      s.(sub := if !belongs || event.sequence <= s.sub.lastSent then s.sub.(phase := Following)
                else Deliver(s.sub, event, delivered, Following))
  }

  ghost predicate Initial(s: System) {
    && s.sessions == map[]
    && s.sub.phase == Connecting && s.sub.sent == [] && s.sub.lastSent == s.sub.resumeAfter
  }

  predicate Leads(s: System, step: Step, s': System) {
    Enabled(s, step) && s' == Take(s, step)
  }

  /** A run of the whole system: its steps and the states they lead through. */
  ghost predicate Execution(states: seq<System>, steps: seq<Step>) {
    && |states| == |steps| + 1 && Initial(states[0])
    && forall i :: 0 <= i < |steps| ==> Leads(states[i], steps[i], states[i + 1])
  }

  // ----- A session's events -----

  /** The stored events of the given runs, in the order they were stored. */
  function Of(log: seq<EventRecord>, runs: seq<string>): seq<EventRecord> {
    if log == [] then []
    else
      var last := log[|log| - 1];
      Of(log[..|log| - 1], runs) + if last.runId in runs then [last] else []
  }

  /** The events numbered above `after`. */
  function Above(events: seq<EventRecord>, after: nat): seq<EventRecord> {
    if events == [] then []
    else
      var last := events[|events| - 1];
      Above(events[..|events| - 1], after) + if last.sequence > after then [last] else []
  }

  function RunsOf(s: System): seq<string> {
    if s.sub.session in s.sessions then s.sessions[s.sub.session].runs else []
  }

  /** Everything the subscribed session has recorded. */
  function SessionEvents(s: System): seq<EventRecord> {
    Of(s.log, RunsOf(s))
  }

  /** No event of an earlier run comes after one of a later run. */
  ghost predicate RunsInOrder(events: seq<EventRecord>, runs: seq<string>) {
    forall k, i, j :: 0 <= k <= |runs| && 0 <= i < j < |events| && events[j].runId in runs[..k] ==> events[i].runId in runs[..k]
  }
}
