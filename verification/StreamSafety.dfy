/** What every reachable state of the event stream satisfies, and that the
    subscriber catches up. */
module StreamSafety {
  import opened Common
  import opened EventStores
  import opened EventStream
  import opened SessionLog

  // ----- Invariants -----

  ghost predicate SessionInv(log: seq<EventRecord>, session: Session) {
    && WellRecorded(log, session.runs)
    && match session.task
       case Idle => true
       case Numbered(next) => next == |Of(log, session.runs)| + 1
       case Recording(run, next) =>
         && next == |Of(log, session.runs)| + 1
         && session.runs != [] && session.runs[|session.runs| - 1] == run
  }

  ghost predicate DisjointRuns(sessions: map<string, Session>) {
    forall a, b, run :: a in sessions && b in sessions && run in sessions[a].runs && run in sessions[b].runs ==> a == b
  }

  ghost predicate SessionsInv(s: System) {
    && DisjointRuns(s.sessions)
    && forall id :: id in s.sessions ==> SessionInv(s.log, s.sessions[id])
  }

  /** How many of the session's events were published before position `n`. */
  function Published(s: System, n: nat): nat
    requires n <= |s.log|
  {
    |Of(s.log[..n], RunsOf(s))|
  }

  /** The frames sent so far are the events after the cursor the client named,
      up to the last one sent. */
  ghost predicate SentInv(s: System) {
    var sub, F := s.sub, SessionEvents(s);
    && sub.resumeAfter <= sub.lastSent
    && (sub.lastSent > sub.resumeAfter ==> sub.lastSent <= |F|)
    && sub.sent == if sub.lastSent == sub.resumeAfter then [] else F[sub.resumeAfter..sub.lastSent]
  }

  /** What each phase knows about the events published before the receiver's
      position: they are sent, or about to be, or will be re-read. */
  ghost predicate PhaseInv(s: System) {
    var sub, F := s.sub, SessionEvents(s);
    match sub.phase
    case Connecting => sub.lastSent == sub.resumeAfter
    case Subscribed => sub.lastSent == sub.resumeAfter && sub.next <= |s.log|
    case Listing => sub.next <= |s.log|
    case Reading(runs) =>
      && sub.next <= |s.log|
      && |runs| <= |RunsOf(s)| && runs == RunsOf(s)[..|runs|]
      && Published(s, sub.next) <= |Of(s.log, runs)|
    case Forwarding(todo) =>
      && sub.next <= |s.log|
      && (todo == [] ==> Published(s, sub.next) <= sub.lastSent)
      && (todo != [] ==>
            && sub.lastSent + |todo| <= |F| && todo == F[sub.lastSent..sub.lastSent + |todo|]
            && Published(s, sub.next) <= sub.lastSent + |todo|)
    case Following => sub.next <= |s.log| && Published(s, sub.next) <= sub.lastSent
    case Deciding(event) =>
      && 0 < sub.next <= |s.log| && event == s.log[sub.next - 1]
      && Published(s, sub.next - 1) <= sub.lastSent
    case Closed => true
  }

  ghost predicate Inv(s: System) {
    SessionsInv(s) && SentInv(s) && PhaseInv(s)
  }

  // ----- The daemon's steps keep the sessions well recorded -----

  lemma OrderGrows(log: seq<EventRecord>, runs: seq<string>, F: seq<EventRecord>, e: EventRecord)
    requires F == Of(log, runs) && RunsInOrder(F, runs)
    requires NoDuplicates(runs) && runs != [] && e.runId == runs[|runs| - 1]
    ensures RunsInOrder(F + [e], runs)
  {
    var more := F + [e];
    forall k, i, j | 0 <= k <= |runs| && 0 <= i < j < |more| && more[j].runId in runs[..k]
      ensures more[i].runId in runs[..k]
    {
      if j == |F| {
        LastNeedsAll(runs, k);
        OfMembers(log, runs, F[i]);
      }
    }
  }

  lemma LastNeedsAll(runs: seq<string>, k: nat)
    requires NoDuplicates(runs) && k <= |runs| && runs != [] && runs[|runs| - 1] in runs[..k]
    ensures runs[..k] == runs
  {
    assert k == |runs|;
  }

  lemma AppendKeepsSession(log: seq<EventRecord>, session: Session, e: EventRecord)
    requires SessionInv(log, session) && session.task.Recording?
    requires e.runId == session.task.run && e.sequence == session.task.next <= I64_MAX
    ensures SessionInv(log + [e], session.(task := Recording(e.runId, e.sequence + 1)))
  {
    OfAppend(log, e, session.runs);
    OrderGrows(log, session.runs, Of(log, session.runs), e);
  }

  lemma ForeignAppendKeepsSession(log: seq<EventRecord>, session: Session, e: EventRecord)
    requires SessionInv(log, session) && e.runId !in session.runs
    ensures SessionInv(log + [e], session)
    ensures Of(log + [e], session.runs) == Of(log, session.runs)
  {
    OfAppend(log, e, session.runs);
  }

  lemma NewRunKeepsEvents(log: seq<EventRecord>, runs: seq<string>, run: string)
    requires forall i :: 0 <= i < |log| ==> log[i].runId != run
    ensures Of(log, runs + [run]) == Of(log, runs)
  {
    OfSame(log, runs + [run], runs);
  }

  lemma RegisterKeepsSession(log: seq<EventRecord>, session: Session, run: string)
    requires SessionInv(log, session) && session.task.Numbered?
    requires run !in session.runs && forall i :: 0 <= i < |log| ==> log[i].runId != run
    ensures SessionInv(log, Session(session.runs + [run], Recording(run, session.task.next)))
  {
    var runs, more := session.runs, session.runs + [run];
    NewRunKeepsEvents(log, runs, run);
    var F := Of(log, runs);
    forall k, i, j | 0 <= k <= |more| && 0 <= i < j < |F| && F[j].runId in more[..k]
      ensures F[i].runId in more[..k]
    {
      OfMembers(log, runs, F[i]);
      if k <= |runs| {
        assert more[..k] == runs[..k];
      } else {
        assert more[..k] == more;
      }
    }
  }

  /** Steps that append to the log. */
  lemma AppendStepKeepsSessions(s: System, step: Step)
    requires Inv(s) && Enabled(s, step) && (step.Append? || step.AppendElsewhere?)
    ensures SessionsInv(Take(s, step))
  {
    var s' := Take(s, step);
    forall id | id in s'.sessions
      ensures SessionInv(s'.log, s'.sessions[id])
    {
      if step.Append? && id == step.id {
        AppendKeepsSession(s.log, s.sessions[id], step.event);
      } else {
        if step.Append? {
          AppendIsForeign(s, step.id, id, step.event);
        }
        ForeignAppendKeepsSession(s.log, s.sessions[id], step.event);
      }
    }
  }

  lemma DaemonStepKeepsSessions(s: System, step: Step)
    requires Inv(s) && Enabled(s, step)
    ensures SessionsInv(Take(s, step))
  {
    match step {
      case CreateSession(id) => OfNothing(s.log);
      case ReadNumber(id) => NextNumberContinues(s.log, s.sessions[id].runs);
      case RegisterRun(id, run) => RegisterKeepsSession(s.log, s.sessions[id], run);
      case Append(_, _) => AppendStepKeepsSessions(s, step);
      case AppendElsewhere(_) => AppendStepKeepsSessions(s, step);
      case _ =>
    }
  }

  // ----- The daemon's steps do not disturb the subscriber -----

  /** `s'` has the subscriber of `s`, more of the same log and more of the same runs. */
  ghost predicate Grows(s: System, s': System) {
    && s'.sub == s.sub
    && s.log <= s'.log
    && RunsOf(s) <= RunsOf(s')
    && SessionEvents(s) <= SessionEvents(s')
    && Of(s.log, RunsOf(s')) == SessionEvents(s)
  }

  lemma PublishedStays(s: System, s': System, n: nat)
    requires Grows(s, s') && n <= |s.log|
    ensures n <= |s'.log| && s'.log[..n] == s.log[..n] && Published(s', n) == Published(s, n)
  {
    SameOnPrefix(s.log, n, RunsOf(s), RunsOf(s'));
  }

  lemma GrowthKeepsSent(s: System, s': System)
    requires SentInv(s) && Grows(s, s')
    ensures SentInv(s')
  {
    var F, F' := SessionEvents(s), SessionEvents(s');
    if s.sub.lastSent > s.sub.resumeAfter {
      assert F'[s.sub.resumeAfter..s.sub.lastSent] == F[s.sub.resumeAfter..s.sub.lastSent];
    }
  }

  lemma GrowthKeepsReading(s: System, s': System)
    requires PhaseInv(s) && Grows(s, s') && s.sub.phase.Reading?
    ensures PhaseInv(s')
  {
    var runs := s.sub.phase.runs;
    PublishedStays(s, s', s.sub.next);
    OfPrefix(s'.log, |s.log|, runs);
    assert s'.log[..|s.log|] == s.log;
    assert RunsOf(s')[..|runs|] == RunsOf(s)[..|runs|];
  }

  lemma GrowthKeepsPhase(s: System, s': System)
    requires PhaseInv(s) && Grows(s, s')
    ensures PhaseInv(s')
  {
    match s.sub.phase {
      case Reading(_) => GrowthKeepsReading(s, s');
      case Forwarding(todo) =>
        PublishedStays(s, s', s.sub.next);
        var F, F' := SessionEvents(s), SessionEvents(s');
        if todo != [] {
          assert F'[s.sub.lastSent..s.sub.lastSent + |todo|] == F[s.sub.lastSent..s.sub.lastSent + |todo|];
        }
      case Following => PublishedStays(s, s', s.sub.next);
      case Deciding(_) => PublishedStays(s, s', s.sub.next - 1);
      case _ =>
    }
  }

  /** Run lists that select the same from a log select the same from its start. */
  lemma {:induction false} SameOnPrefix(log: seq<EventRecord>, n: nat, runs: seq<string>, more: seq<string>)
    requires n <= |log| && runs <= more && Of(log, more) == Of(log, runs)
    ensures Of(log[..n], more) == Of(log[..n], runs)
  {
    forall i | 0 <= i < |log|
      ensures log[i].runId in more <==> log[i].runId in runs
    {
      OfMembers(log, runs, log[i]);
      OfMembers(log, more, log[i]);
    }
    OfSame(log[..n], more, runs);
  }

  /** An event of one session's run belongs to no other session. */
  lemma AppendIsForeign(s: System, id: string, other: string, e: EventRecord)
    requires SessionsInv(s) && Enabled(s, Append(id, e)) && other in s.sessions && other != id
    ensures e.runId !in s.sessions[other].runs
  {
    assert SessionInv(s.log, s.sessions[id]);
    assert e.runId in s.sessions[id].runs;
  }

  lemma RegisterGrows(s: System, id: string, run: string)
    requires Enabled(s, RegisterRun(id, run))
    ensures Grows(s, Take(s, RegisterRun(id, run)))
  {
    NewRunKeepsEvents(s.log, RunsOf(s), run);
  }

  lemma AppendGrows(s: System, id: string, e: EventRecord)
    requires Enabled(s, Append(id, e))
    ensures Grows(s, Take(s, Append(id, e)))
  {
    OfAppend(s.log, e, RunsOf(s));
  }

  lemma AppendElsewhereGrows(s: System, e: EventRecord)
    requires Enabled(s, AppendElsewhere(e))
    ensures Grows(s, Take(s, AppendElsewhere(e)))
  {
    OfAppend(s.log, e, RunsOf(s));
  }

  lemma QuietStepGrows(s: System, step: Step)
    requires Enabled(s, step) && (step.CreateSession? || step.ReadNumber? || step.EndRun?)
    ensures Grows(s, Take(s, step))
  {
    OfNothing(s.log);
  }

  lemma DaemonStepGrows(s: System, step: Step)
    requires Enabled(s, step)
    requires step.CreateSession? || step.ReadNumber? || step.RegisterRun? || step.Append? || step.EndRun? || step.AppendElsewhere?
    ensures Grows(s, Take(s, step))
  {
    match step {
      case RegisterRun(id, run) => RegisterGrows(s, id, run);
      case Append(id, e) => AppendGrows(s, id, e);
      case AppendElsewhere(e) => AppendElsewhereGrows(s, e);
      case _ => QuietStepGrows(s, step);
    }
  }

  // ----- The subscriber's steps -----

  lemma RunsWellRecorded(s: System)
    requires Inv(s)
    ensures WellRecorded(s.log, RunsOf(s))
  {
    OfNothing(s.log);
  }

  lemma PublishedAtMost(s: System, n: nat)
    requires n <= |s.log|
    ensures Published(s, n) <= |SessionEvents(s)|
  {
    OfPrefix(s.log, n, RunsOf(s));
  }

  /** The run list just taken covers every event published so far. */
  lemma ListStep(s: System)
    requires Inv(s) && s.sub.phase.Listing?
    ensures Inv(Take(s, ListRuns))
  {
    PublishedAtMost(s, s.sub.next);
    assert RunsOf(s)[..|RunsOf(s)|] == RunsOf(s);
  }

  /** A replay hands over exactly the session's next events, also when the run
      list it was made with has been outgrown meanwhile. */
  lemma ReadStep(s: System)
    requires Inv(s) && s.sub.phase.Reading?
    ensures Inv(Take(s, ReadStore))
  {
    assert ReplayedAll(s) by {
      RunsWellRecorded(s);
      ReplayIsSuffix(s.log, RunsOf(s), |s.sub.phase.runs|, s.sub.lastSent);
    }
    ReadKeepsSubscriber(s);
  }

  ghost predicate ReplayedAll(s: System)
    requires s.sub.phase.Reading?
  {
    var runs := s.sub.phase.runs;
    && Of(s.log, runs) <= SessionEvents(s)
    && SessionEventsAfter(s.log, runs, s.sub.lastSent) == Suffix(Of(s.log, runs), s.sub.lastSent)
  }

  lemma ReadKeepsSubscriber(s: System)
    requires SentInv(s) && PhaseInv(s) && s.sub.phase.Reading? && ReplayedAll(s)
    ensures SentInv(Take(s, ReadStore)) && PhaseInv(Take(s, ReadStore))
  {
    SuffixOfPrefix(SessionEvents(s), Of(s.log, s.sub.phase.runs), s.sub.lastSent);
  }

  lemma SuffixOfPrefix(F: seq<EventRecord>, G: seq<EventRecord>, last: nat)
    requires G <= F
    ensures var todo := Suffix(G, last);
            if todo == [] then |G| <= last
            else last + |todo| == |G| <= |F| && todo == F[last..last + |todo|]
  {
  }

  lemma ForwardStep(s: System, delivered: bool)
    requires Inv(s) && s.sub.phase.Forwarding?
    ensures Inv(Take(s, ForwardNext(delivered)))
  {
    assert NumberedFrom(SessionEvents(s), 0) by {
      RunsWellRecorded(s);
    }
    ForwardKeepsSubscriber(s, delivered);
  }

  lemma ForwardKeepsSubscriber(s: System, delivered: bool)
    requires SentInv(s) && PhaseInv(s) && s.sub.phase.Forwarding? && NumberedFrom(SessionEvents(s), 0)
    ensures SentInv(Take(s, ForwardNext(delivered))) && PhaseInv(Take(s, ForwardNext(delivered)))
  {
    if s.sub.phase.todo != [] {
      ForwardOneIsSent(s, delivered);
      ForwardOneLeavesRest(s, delivered);
    }
  }

  lemma ForwardOneIsSent(s: System, delivered: bool)
    requires SentInv(s) && PhaseInv(s) && s.sub.phase.Forwarding? && s.sub.phase.todo != []
    requires NumberedFrom(SessionEvents(s), 0)
    ensures SentInv(Take(s, ForwardNext(delivered)))
  {
    var s' := Take(s, ForwardNext(delivered));
    assert RunsOf(s') == RunsOf(s) && s'.log == s.log;
    NextToForward(SessionEvents(s), s.sub.phase.todo, s.sub.resumeAfter, s.sub.lastSent);
  }

  lemma ForwardOneLeavesRest(s: System, delivered: bool)
    requires SentInv(s) && PhaseInv(s) && s.sub.phase.Forwarding? && s.sub.phase.todo != []
    requires NumberedFrom(SessionEvents(s), 0)
    ensures PhaseInv(Take(s, ForwardNext(delivered)))
  {
    var s' := Take(s, ForwardNext(delivered));
    assert RunsOf(s') == RunsOf(s) && s'.log == s.log;
    NextToForward(SessionEvents(s), s.sub.phase.todo, s.sub.resumeAfter, s.sub.lastSent);
  }

  /** The first event still to be forwarded is the next one of the session. */
  lemma NextToForward(F: seq<EventRecord>, todo: seq<EventRecord>, resumeAfter: nat, lastSent: nat)
    requires NumberedFrom(F, 0) && resumeAfter <= lastSent && todo != []
    requires lastSent + |todo| <= |F| && todo == F[lastSent..lastSent + |todo|]
    ensures todo[0].sequence == lastSent + 1
    ensures F[resumeAfter..lastSent + 1] == F[resumeAfter..lastSent] + [todo[0]]
    ensures lastSent == resumeAfter ==> F[resumeAfter..lastSent] == []
    ensures todo[1..] == F[lastSent + 1..lastSent + |todo|]
  {
    assert todo[0] == F[lastSent];
  }

  /** The received event takes its place among the session's events. */
  lemma ReceivedEvent(s: System)
    requires Inv(s) && s.sub.phase.Deciding?
    ensures var e, k := s.sub.phase.event, Published(s, s.sub.next - 1);
            if e.runId in RunsOf(s)
            then Published(s, s.sub.next) == k + 1 <= |SessionEvents(s)| && SessionEvents(s)[k] == e && e.sequence == k + 1
            else Published(s, s.sub.next) == k
  {
    RunsWellRecorded(s);
    var e, before := s.sub.phase.event, s.log[..s.sub.next - 1];
    assert s.log[..s.sub.next] == before + [e];
    OfAppend(before, e, RunsOf(s));
    OfPrefix(s.log, s.sub.next, RunsOf(s));
    if e.runId in RunsOf(s) {
      var k := Published(s, s.sub.next - 1);
      assert Of(s.log[..s.sub.next], RunsOf(s))[k] == e;
    }
  }

  lemma ExtendSent(F: seq<EventRecord>, from: nat, to: nat, e: EventRecord)
    requires from <= to < |F| && F[to] == e
    ensures F[from..to + 1] == F[from..to] + [e]
  {
  }

  /** An event above the last one sent is the very next one. */
  lemma DecideStep(s: System, delivered: bool)
    requires Inv(s) && s.sub.phase.Deciding?
    ensures Inv(Take(s, Decide(delivered)))
  {
    ReceivedEvent(s);
    var s' := Take(s, Decide(delivered));
    assert RunsOf(s') == RunsOf(s) && s'.log == s.log && s'.sessions == s.sessions;
    DecideKeepsSubscriber(s, delivered);
  }

  lemma DecideKeepsSubscriber(s: System, delivered: bool)
    requires SentInv(s) && PhaseInv(s) && s.sub.phase.Deciding?
    requires var e, k := s.sub.phase.event, Published(s, s.sub.next - 1);
             if e.runId in RunsOf(s)
             then Published(s, s.sub.next) == k + 1 <= |SessionEvents(s)| && SessionEvents(s)[k] == e && e.sequence == k + 1
             else Published(s, s.sub.next) == k
    ensures SentInv(Take(s, Decide(delivered))) && PhaseInv(Take(s, Decide(delivered)))
  {
    var sub, F := s.sub, SessionEvents(s);
    var e := sub.phase.event;
    var s' := Take(s, Decide(delivered));
    assert Published(s', sub.next) == Published(s, sub.next) && SessionEvents(s') == F;
    if e.runId in RunsOf(s) && e.sequence > sub.lastSent {
      ExtendSent(F, sub.resumeAfter, sub.lastSent, e);
      assert sub.lastSent == sub.resumeAfter ==> F[sub.resumeAfter..sub.lastSent] == [];
    }
  }

  lemma SubscriberStepKeepsInv(s: System, step: Step)
    requires Inv(s) && Enabled(s, step)
    requires step.Subscribe? || step.CheckSession? || step.ListRuns? || step.ReadStore? || step.ForwardNext? ||
             step.Receive? || step.Lag? || step.Decide?
    ensures Inv(Take(s, step))
  {
    match step {
      case ListRuns => ListStep(s);
      case ReadStore => ReadStep(s);
      case ForwardNext(delivered) => ForwardStep(s, delivered);
      case Decide(delivered) => DecideStep(s, delivered);
      case _ =>
    }
  }

  lemma StepKeepsInv(s: System, step: Step)
    requires Inv(s) && Enabled(s, step)
    ensures Inv(Take(s, step))
  {
    if step.CreateSession? || step.ReadNumber? || step.RegisterRun? || step.Append? || step.EndRun? || step.AppendElsewhere? {
      DaemonStepKeepsSessions(s, step);
      DaemonStepGrows(s, step);
      GrowthKeepsSent(s, Take(s, step));
      GrowthKeepsPhase(s, Take(s, step));
    } else {
      SubscriberStepKeepsInv(s, step);
    }
  }

  lemma {:induction false} ReachableStatesSatisfyInv(states: seq<System>, steps: seq<Step>, n: nat)
    requires Execution(states, steps) && n < |states|
    ensures Inv(states[n])
  {
    if n == 0 {
    } else {
      ReachableStatesSatisfyInv(states, steps, n - 1);
      assert Leads(states[n - 1], steps[n - 1], states[n]);
      StepKeepsInv(states[n - 1], steps[n - 1]);
    }
  }

  // ----- The main results -----

  /** Across all its runs a session's events are numbered 1, 2, 3, ... */
  lemma SessionsAreNumberedFromOne(states: seq<System>, steps: seq<Step>, n: nat, id: string)
    requires Execution(states, steps) && n < |states| && id in states[n].sessions
    ensures NumberedFrom(Of(states[n].log, states[n].sessions[id].runs), 0)
  {
    ReachableStatesSatisfyInv(states, steps, n);
  }

  /** Some run no session and no event has named. */
  lemma SomeRunIsFresh(s: System)
    ensures exists run :: FreshRun(s, run)
  {
    var taken := (set id, i | id in s.sessions && 0 <= i < |s.sessions[id].runs| :: s.sessions[id].runs[i])
               + (set i | 0 <= i < |s.log| :: s.log[i].runId);
    var run := LongerThanAll(taken);
    assert forall i :: 0 <= i < |s.log| ==> s.log[i].runId in taken;
    assert forall id, i :: id in s.sessions && 0 <= i < |s.sessions[id].runs| ==> s.sessions[id].runs[i] in taken;
    assert FreshRun(s, run);
  }

  lemma {:induction false} LongerThanAll(strings: set<string>) returns (long: string)
    ensures long != "" && forall x :: x in strings ==> |x| < |long|
    decreases |strings|
  {
    if strings == {} {
      long := "x";
    } else {
      var x :| x in strings;
      var rest := LongerThanAll(strings - {x});
      long := rest + x;
      assert forall y :: y in strings ==> y == x || y in strings - {x};
    }
  }

  /** The steps by which a session gets one more event recorded. */
  function StepsToRecord(session: Session, id: string, run: string, event: EventRecord): seq<Step> {
    match session.task
    case Idle => [ReadNumber(id), RegisterRun(id, run), Append(id, event)]
    case Numbered(_) => [RegisterRun(id, run), Append(id, event)]
    case Recording(_, _) => [Append(id, event)]
  }

  /** The system after steps that are each enabled when they come, if they are. */
  function AfterSteps(s: System, steps: seq<Step>): Option<System>
    decreases |steps|
  {
    if steps == [] then Some(s)
    else if Enabled(s, steps[0]) then AfterSteps(Take(s, steps[0]), steps[1..])
    else None
  }

  /** A session's own steps store this event at the end of the log, under one
      of its runs, and do not touch the subscriber. */
  predicate CanRecord(s: System, id: string, event: EventRecord)
    requires id in s.sessions
  {
    var s' := AfterSteps(s, StepsToRecord(s.sessions[id], id, event.runId, event));
    && s'.Some? && s'.value.log == s.log + [event] && s'.value.sub == s.sub
    && id in s'.value.sessions && event.runId in s'.value.sessions[id].runs
  }

  /** In every reachable state every session can go on recording, whatever the
      subscriber does: an event with any content, numbered one past all the
      session has, in the run under way or a new one. */
  lemma SessionsCanAlwaysRecord(states: seq<System>, steps: seq<Step>, n: nat, id: string, event: EventRecord)
    requires Execution(states, steps) && n < |states| && id in states[n].sessions
    requires event.sequence == |Of(states[n].log, states[n].sessions[id].runs)| + 1 <= I64_MAX
    ensures exists run :: CanRecord(states[n], id, event.(runId := run))
  {
    ReachableStatesSatisfyInv(states, steps, n);
    var s, task := states[n], states[n].sessions[id].task;
    SomeRunIsFresh(s);
    var unused :| FreshRun(s, unused);
    SessionRecords(s, id, event.(runId := if task.Recording? then task.run else unused));
  }

  lemma SessionRecords(s: System, id: string, event: EventRecord)
    requires id in s.sessions && SessionInv(s.log, s.sessions[id])
    requires event.sequence == |Of(s.log, s.sessions[id].runs)| + 1 <= I64_MAX
    requires if s.sessions[id].task.Recording? then event.runId == s.sessions[id].task.run else FreshRun(s, event.runId)
    ensures CanRecord(s, id, event)
  {
    var session := s.sessions[id];
    match session.task {
      case Recording(_, _) => AppendRecords(s, id, event);
      case Numbered(_) => RunRecords(s, id, event);
      case Idle =>
        NextNumberContinues(s.log, session.runs);
        var numbered := Take(s, ReadNumber(id));
        RunRecords(numbered, id, event);
        assert [ReadNumber(id), RegisterRun(id, event.runId), Append(id, event)][1..]
            == [RegisterRun(id, event.runId), Append(id, event)];
    }
  }

  lemma RunRecords(s: System, id: string, event: EventRecord)
    requires id in s.sessions && s.sessions[id].task == Numbered(event.sequence)
    requires 1 <= event.sequence <= I64_MAX && FreshRun(s, event.runId)
    ensures var s' := AfterSteps(s, [RegisterRun(id, event.runId), Append(id, event)]);
            && s'.Some? && s'.value.log == s.log + [event] && s'.value.sub == s.sub
            && id in s'.value.sessions && event.runId in s'.value.sessions[id].runs
  {
    AppendRecords(Take(s, RegisterRun(id, event.runId)), id, event);
    assert [RegisterRun(id, event.runId), Append(id, event)][1..] == [Append(id, event)];
  }

  lemma AppendRecords(s: System, id: string, event: EventRecord)
    requires id in s.sessions && s.sessions[id].task == Recording(event.runId, event.sequence)
    requires event.sequence <= I64_MAX && event.runId in s.sessions[id].runs
    ensures var s' := AfterSteps(s, [Append(id, event)]);
            && s'.Some? && s'.value.log == s.log + [event] && s'.value.sub == s.sub
            && id in s'.value.sessions && event.runId in s'.value.sessions[id].runs
  {
    assert [Append(id, event)][1..] == [];
  }

  /** Among numbered events, those above a cursor begin right after it. */
  lemma SentAmongNumbered(F: seq<EventRecord>, resumeAfter: nat, lastSent: nat, sent: seq<EventRecord>)
    requires NumberedFrom(F, 0) && resumeAfter <= lastSent
    requires lastSent > resumeAfter ==> lastSent <= |F| && sent == F[resumeAfter..lastSent]
    requires lastSent == resumeAfter ==> sent == []
    ensures sent <= Above(F, resumeAfter)
    ensures lastSent >= |F| ==> sent == Above(F, resumeAfter)
  {
    AboveNumbered(F, 0, resumeAfter);
  }

  lemma SentIsFirst(s: System)
    requires SentInv(s) && NumberedFrom(SessionEvents(s), 0)
    ensures s.sub.sent <= Above(SessionEvents(s), s.sub.resumeAfter)
    ensures s.sub.lastSent >= |SessionEvents(s)| ==> s.sub.sent == Above(SessionEvents(s), s.sub.resumeAfter)
  {
    SentAmongNumbered(SessionEvents(s), s.sub.resumeAfter, s.sub.lastSent, s.sub.sent);
  }

  /** In every reachable state, the frames sent are, in order and once each, the
      first of the session's stored events numbered above the cursor. */
  lemma SentIsPrefix(states: seq<System>, steps: seq<Step>, n: nat)
    requires Execution(states, steps) && n < |states|
    ensures states[n].sub.sent <= Above(SessionEvents(states[n]), states[n].sub.resumeAfter)
  {
    ReachableStatesSatisfyInv(states, steps, n);
    RunsWellRecorded(states[n]);
    SentIsFirst(states[n]);
  }

  lemma DrainedHasEverything(s: System)
    requires Inv(s) && s.sub.phase.Following? && s.sub.next == |s.log|
    ensures s.sub.sent == Above(SessionEvents(s), s.sub.resumeAfter)
  {
    RunsWellRecorded(s);
    assert s.log[..|s.log|] == s.log;
    SentIsFirst(s);
  }

  /** Once the receiver is drained, the frames sent are all of them: nothing
      was lost at the handover, in a run list that missed a run, or to lag. */
  lemma DrainedSubscriberHasEverything(states: seq<System>, steps: seq<Step>, n: nat)
    requires Execution(states, steps) && n < |states|
    requires states[n].sub.phase.Following? && states[n].sub.next == |states[n].log|
    ensures states[n].sub.sent == Above(SessionEvents(states[n]), states[n].sub.resumeAfter)
  {
    ReachableStatesSatisfyInv(states, steps, n);
    DrainedHasEverything(states[n]);
  }

  // ----- Catching up -----

  /** How far a subscriber is from having drained its receiver: the published
      events it has not read, then how far it is through the loop's body. */
  function Unread(s: System): nat {
    match s.sub.phase
    case Connecting => |s.log| + 6
    case Subscribed => |s.log| + 5
    case Closed => 0
    case _ => if s.sub.next <= |s.log| then |s.log| - s.sub.next else 0
  }

  function PhaseRank(phase: Phase): nat {
    match phase
    case Connecting => 0
    case Subscribed => 0
    case Listing => 4
    case Reading(_) => 3
    case Forwarding(_) => 2
    case Deciding(_) => 1
    case Following => 0
    case Closed => 0
  }

  function Backlog(phase: Phase): nat {
    if phase.Forwarding? then |phase.todo| else 0
  }

  ghost predicate CloserToDrained(s: System, s': System) {
    || Unread(s') < Unread(s)
    || (Unread(s') == Unread(s) && PhaseRank(s'.sub.phase) < PhaseRank(s.sub.phase))
    || (Unread(s') == Unread(s) && PhaseRank(s'.sub.phase) == PhaseRank(s.sub.phase) && Backlog(s'.sub.phase) < Backlog(s.sub.phase))
  }

  function SubscriberSteps(): set<Step> {
    {Subscribe, CheckSession, ListRuns, ReadStore, ForwardNext(true), ForwardNext(false), Receive, Lag, Decide(true), Decide(false)}
  }

  /** The step a live subscriber takes next, when the connection holds. */
  function NextSubscriberStep(s: System): Step {
    match s.sub.phase
    case Connecting => Subscribe
    case Subscribed => CheckSession
    case Listing => ListRuns
    case Reading(_) => ReadStore
    case Forwarding(_) => ForwardNext(true)
    case Deciding(_) => Decide(true)
    case _ => if |s.log| > s.sub.next + s.capacity then Lag else Receive
  }

  lemma SubscriberStepIsCloser(s: System, step: Step)
    requires PhaseInv(s) && step in SubscriberSteps() && Enabled(s, step)
    requires !Take(s, step).sub.phase.Closed?
    ensures CloserToDrained(s, Take(s, step))
  {
  }

  /** While a live subscriber is not drained, it has a step of its own, and
      every such step, a lost connection aside, brings it closer: once appends
      stop it drains. */
  lemma SubscriberCatchesUp(s: System)
    requires Inv(s) && s.capacity > 0
    requires !s.sub.phase.Closed? && !(s.sub.phase.Following? && s.sub.next == |s.log|)
    ensures NextSubscriberStep(s) in SubscriberSteps() && Enabled(s, NextSubscriberStep(s))
    ensures forall step :: step in SubscriberSteps() && Enabled(s, step) && !Take(s, step).sub.phase.Closed? ==>
              CloserToDrained(s, Take(s, step))
  {
    forall step | step in SubscriberSteps() && Enabled(s, step) && !Take(s, step).sub.phase.Closed?
      ensures CloserToDrained(s, Take(s, step))
    {
      SubscriberStepIsCloser(s, step);
    }
  }

  /** The system once its subscriber has run on alone, the connection holding. */
  ghost function CaughtUp(s: System): System
    requires Inv(s) && s.capacity > 0
    decreases Unread(s), PhaseRank(s.sub.phase), Backlog(s.sub.phase)
  {
    if s.sub.phase.Closed? || (s.sub.phase.Following? && s.sub.next == |s.log|) then s
    else
      SubscriberCatchesUp(s);
      StepKeepsInv(s, NextSubscriberStep(s));
      var s' := Take(s, NextSubscriberStep(s));
      if s'.sub.phase.Closed? then s' else CaughtUp(s')
  }

  /** A subscriber of a known session, left to run while no event is appended,
      ends up having been sent every event above its cursor, and nothing else. */
  lemma {:induction false} CatchingUpSendsEverything(s: System)
    requires Inv(s) && s.capacity > 0 && s.sub.session in s.sessions && !s.sub.phase.Closed?
    ensures CaughtUp(s).log == s.log && CaughtUp(s).sessions == s.sessions
    ensures CaughtUp(s).sub.sent == Above(SessionEvents(s), s.sub.resumeAfter)
    decreases Unread(s), PhaseRank(s.sub.phase), Backlog(s.sub.phase)
  {
    if s.sub.phase.Following? && s.sub.next == |s.log| {
      DrainedHasEverything(s);
    } else {
      SubscriberCatchesUp(s);
      StepKeepsInv(s, NextSubscriberStep(s));
      NextStepKeepsRest(s);
      CatchingUpSendsEverything(Take(s, NextSubscriberStep(s)));
    }
  }

  lemma NextStepKeepsRest(s: System)
    requires Inv(s) && s.sub.session in s.sessions && !s.sub.phase.Closed? && Enabled(s, NextSubscriberStep(s))
    ensures var s' := Take(s, NextSubscriberStep(s));
            && s'.log == s.log && s'.sessions == s.sessions && s'.capacity == s.capacity
            && s'.sub.session == s.sub.session && s'.sub.resumeAfter == s.sub.resumeAfter
            && !s'.sub.phase.Closed?
  {
  }
}
