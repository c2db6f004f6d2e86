/** Where a session's effects are while receipts are made of them: in its
    journal, in a receipt not yet written, or in a signed one
    (crates/app-server/src/journal.rs, crates/app-server/src/api.rs). */
module ReceiptFlow {
  import opened Common
  import opened AppJournals

  /** An effect and its number in the order effects were recorded. */
  datatype Noted = Noted(number: nat, effect: Effect)

  datatype Session = Session(
    history: seq<Effect>,       // everything ever recorded, in order
    journal: seq<Noted>,
    inFlight: seq<seq<Noted>>,  // taken, neither written nor restored
    signed: seq<seq<Noted>>)

  type System = map<string, Session>

  datatype Step =
    | Open(token: string)
    | Record(token: string, effect: Effect)
    | Take(token: string)
    | Fail(token: string, receipt: nat)
    | Succeed(token: string, receipt: nat)

  function Without<T>(s: seq<T>, k: nat): seq<T>
    requires k < |s|
  {
    s[..k] + s[k + 1..]
  }

  function RecordIn(s: Session, effect: Effect): Session {
    s.(history := s.history + [effect], journal := s.journal + [Noted(|s.history|, effect)])
  }

  function TakeIn(s: Session): Session {
    s.(journal := [], inFlight := s.inFlight + [s.journal])
  }

  function FailIn(s: Session, k: nat): Session
    requires k < |s.inFlight|
  {
    s.(journal := s.inFlight[k] + s.journal, inFlight := Without(s.inFlight, k))
  }

  function SucceedIn(s: Session, k: nat): Session
    requires k < |s.inFlight|
  {
    s.(inFlight := Without(s.inFlight, k), signed := s.signed + [s.inFlight[k]])
  }

  /** A step on a token no session has changes nothing. A new session's token is
      fresh. */
  predicate Enabled(sys: System, step: Step) {
    match step
    case Open(token) => token !in sys
    case Fail(token, k) => token in sys ==> k < |sys[token].inFlight|
    case Succeed(token, k) => token in sys ==> k < |sys[token].inFlight|
    case _ => true
  }

  function Next(sys: System, step: Step): System
    requires Enabled(sys, step)
  {
    match step
    case Open(token) => sys[token := Session([], [], [], [])]
    case Record(token, effect) => if token in sys then sys[token := RecordIn(sys[token], effect)] else sys
    case Take(token) => if token in sys then sys[token := TakeIn(sys[token])] else sys
    case Fail(token, k) => if token in sys then sys[token := FailIn(sys[token], k)] else sys
    case Succeed(token, k) => if token in sys then sys[token := SucceedIn(sys[token], k)] else sys
  }

  ghost predicate Run(states: seq<System>, steps: seq<Step>) {
    && |states| == |steps| + 1
    && states[0] == map[]
    && forall i :: 0 <= i < |steps| ==> Enabled(states[i], steps[i]) && states[i + 1] == Next(states[i], steps[i])
  }

  // ----- Conservation -----

  function Pool(receipts: seq<seq<Noted>>): multiset<Noted> {
    if receipts == [] then multiset{}
    else Pool(receipts[..|receipts| - 1]) + multiset(receipts[|receipts| - 1])
  }

  function Noting(history: seq<Effect>): seq<Noted> {
    seq(|history|, n requires 0 <= n < |history| => Noted(n, history[n]))
  }

  function Held(s: Session): multiset<Noted> {
    multiset(s.journal) + Pool(s.inFlight) + Pool(s.signed)
  }

  ghost predicate Conserved(s: Session) {
    Held(s) == multiset(Noting(s.history))
  }

  lemma {:induction false} PoolWithout(receipts: seq<seq<Noted>>, k: nat)
    requires k < |receipts|
    ensures Pool(Without(receipts, k)) + multiset(receipts[k]) == Pool(receipts)
    decreases |receipts|
  {
    var n := |receipts| - 1;
    if k == n {
      assert Without(receipts, k) == receipts[..n];
    } else {
      PoolWithout(receipts[..n], k);
      WithoutLast(receipts, k);
      PoolGrows(Without(receipts[..n], k), receipts[n]);
    }
  }

  lemma WithoutLast<T>(s: seq<T>, k: nat)
    requires k + 1 < |s|
    ensures Without(s, k) == Without(s[..|s| - 1], k) + [s[|s| - 1]]
  {
  }

  lemma PoolGrows(receipts: seq<seq<Noted>>, receipt: seq<Noted>)
    ensures Pool(receipts + [receipt]) == Pool(receipts) + multiset(receipt)
  {
    assert (receipts + [receipt])[..|receipts|] == receipts;
  }

  lemma RecordConserves(s: Session, effect: Effect)
    requires Conserved(s)
    ensures Conserved(RecordIn(s, effect))
  {
    assert Noting(s.history + [effect]) == Noting(s.history) + [Noted(|s.history|, effect)];
  }

  lemma TakeConserves(s: Session)
    requires Conserved(s)
    ensures Conserved(TakeIn(s))
  {
    PoolGrows(s.inFlight, s.journal);
  }

  lemma FailConserves(s: Session, k: nat)
    requires Conserved(s) && k < |s.inFlight|
    ensures Conserved(FailIn(s, k))
  {
    PoolWithout(s.inFlight, k);
  }

  lemma SucceedConserves(s: Session, k: nat)
    requires Conserved(s) && k < |s.inFlight|
    ensures Conserved(SucceedIn(s, k))
  {
    PoolWithout(s.inFlight, k);
    PoolGrows(s.signed, s.inFlight[k]);
  }

  lemma StepConserves(sys: System, step: Step)
    requires Enabled(sys, step)
    requires forall token :: token in sys ==> Conserved(sys[token])
    ensures forall token :: token in Next(sys, step) ==> Conserved(Next(sys, step)[token])
  {
    if step.token in sys {
      var s := sys[step.token];
      match step {
        case Record(_, effect) => RecordConserves(s, effect);
        case Take(_) => TakeConserves(s);
        case Fail(_, k) => FailConserves(s, k);
        case Succeed(_, k) => SucceedConserves(s, k);
        case Open(_) =>
      }
    }
  }

  lemma {:induction false} EveryStateConserves(states: seq<System>, steps: seq<Step>, i: nat)
    requires Run(states, steps) && i < |states|
    ensures forall token :: token in states[i] ==> Conserved(states[i][token])
    decreases i
  {
    if i == 0 {
    } else {
      EveryStateConserves(states, steps, i - 1);
      StepConserves(states[i - 1], steps[i - 1]);
    }
  }

  lemma NotedOnce(history: seq<Effect>, n: nat)
    requires n < |history|
    ensures multiset(Noting(history))[Noted(n, history[n])] == 1
  {
    var all := Noting(history);
    var x := Noted(n, history[n]);
    assert all == all[..n] + [all[n]] + all[n + 1..];
    assert all[n] == x && x !in all[..n] && x !in all[n + 1..];
    assert multiset(all) == multiset(all[..n]) + multiset([x]) + multiset(all[n + 1..]);
  }

  /** Whatever the interleaving, every effect ever recorded is in one place
      once: the journal, a receipt in flight, or a signed receipt. */
  lemma EachEffectIsHeldOnce(states: seq<System>, steps: seq<Step>, i: nat, token: string)
    requires Run(states, steps) && i < |states| && token in states[i]
    ensures var s := states[i][token];
            && (forall n :: 0 <= n < |s.history| ==> Held(s)[Noted(n, s.history[n])] == 1)
            && |Held(s)| == |s.history|
  {
    EveryStateConserves(states, steps, i);
    var s := states[i][token];
    assert Conserved(s);
    forall n | 0 <= n < |s.history|
      ensures Held(s)[Noted(n, s.history[n])] == 1
    {
      NotedOnce(s.history, n);
    }
  }

  /** The effects recorded under a token, from its session's start on. */
  function RecordedUnder(steps: seq<Step>, token: string): seq<Effect> {
    if steps == [] then []
    else
      var front, last := steps[..|steps| - 1], steps[|steps| - 1];
      RecordedUnder(front, token)
      + if last.Record? && last.token == token && Open(token) in front then [last.effect] else []
  }

  /** One step's share of what `HistoryIsWhatWasRecorded` says. */
  lemma StepIsRecorded(sys: System, step: Step, token: string)
    requires Enabled(sys, step)
    ensures token in Next(sys, step) <==> token in sys || step == Open(token)
    ensures token in sys ==>
              && Next(sys, step)[token].history
                 == sys[token].history + (if step.Record? && step.token == token then [step.effect] else [])
              && sys[token].signed <= Next(sys, step)[token].signed
    ensures step == Open(token) ==> Next(sys, step)[token].history == []
  {
  }

  /** A session is there once it was opened, and its history is what was
      recorded under its token since; no receipt it signed is taken back. */
  lemma {:induction false} HistoryIsWhatWasRecorded(states: seq<System>, steps: seq<Step>, i: nat, token: string)
    requires Run(states, steps) && i < |states|
    ensures token in states[i] <==> Open(token) in steps[..i]
    ensures RecordedUnder(steps[..i], token) == if token in states[i] then states[i][token].history else []
    ensures i > 0 && token in states[i - 1] ==>
              token in states[i] && states[i - 1][token].signed <= states[i][token].signed
    decreases i
  {
    if i == 0 {
    } else {
      HistoryIsWhatWasRecorded(states, steps, i - 1, token);
      StepIsRecorded(states[i - 1], steps[i - 1], token);
      RecordedGrows(steps[..i - 1], steps[i - 1], token);
      assert steps[..i] == steps[..i - 1] + [steps[i - 1]];
    }
  }

  lemma RecordedGrows(steps: seq<Step>, step: Step, token: string)
    ensures RecordedUnder(steps + [step], token) == RecordedUnder(steps, token)
            + if step.Record? && step.token == token && Open(token) in steps then [step.effect] else []
  {
    assert (steps + [step])[..|steps|] == steps;
  }

  lemma BegunHoldsAll(s: Session)
    requires Conserved(s)
    ensures var begun := TakeIn(s);
            begun.journal == [] && Pool(begun.inFlight) + Pool(begun.signed) == multiset(Noting(s.history))
  {
    TakeConserves(s);
    assert multiset(TakeIn(s).journal) == multiset{};
    assert Held(TakeIn(s)) == multiset(Noting(s.history));
  }

  /** Once a receipt is begun, receipts hold everything recorded so far: each
      effect once, and nothing is left in the journal. */
  lemma BegunReceiptLeavesNothingOut(states: seq<System>, steps: seq<Step>, i: nat, token: string)
    requires Run(states, steps) && i < |steps| && steps[i] == Take(token) && token in states[i]
    ensures token in states[i + 1]
    ensures var s := states[i + 1][token];
            s.journal == [] && Pool(s.inFlight) + Pool(s.signed) == multiset(Noting(RecordedUnder(steps[..i], token)))
  {
    HistoryIsWhatWasRecorded(states, steps, i, token);
    EveryStateConserves(states, steps, i);
    BegunHoldsAll(states[i][token]);
    assert states[i + 1] == Next(states[i], steps[i]);
    assert states[i + 1][token] == TakeIn(states[i][token]);
  }

  // ----- Order -----

  function Flat(receipts: seq<seq<Noted>>): seq<Noted> {
    if receipts == [] then [] else Flat(receipts[..|receipts| - 1]) + receipts[|receipts| - 1]
  }

  /** Signed receipts, then the one in flight, then the journal, read in
      recording order. */
  ghost predicate InOrder(s: Session) {
    |s.inFlight| <= 1 && Flat(s.signed) + Flat(s.inFlight) + s.journal == Noting(s.history)
  }

  lemma FlatOne(receipt: seq<Noted>)
    ensures Flat([receipt]) == receipt
  {
    assert [receipt][..0] == [];
  }

  lemma FlatGrows(receipts: seq<seq<Noted>>, receipt: seq<Noted>)
    ensures Flat(receipts + [receipt]) == Flat(receipts) + receipt
  {
    assert (receipts + [receipt])[..|receipts|] == receipts;
  }

  lemma RecordKeepsOrder(s: Session, effect: Effect)
    requires InOrder(s)
    ensures InOrder(RecordIn(s, effect))
  {
    assert Noting(s.history + [effect]) == Noting(s.history) + [Noted(|s.history|, effect)];
  }

  lemma TakeKeepsOrder(s: Session)
    requires InOrder(s) && s.inFlight == []
    ensures InOrder(TakeIn(s))
  {
    FlatOne(s.journal);
    assert TakeIn(s).inFlight == [s.journal];
  }

  lemma EndKeepsOrder(s: Session)
    requires InOrder(s) && |s.inFlight| == 1
    ensures InOrder(FailIn(s, 0)) && InOrder(SucceedIn(s, 0))
  {
    var receipt := s.inFlight[0];
    assert s.inFlight == [receipt] && Without(s.inFlight, 0) == [];
    FlatOne(receipt);
    FlatGrows(s.signed, receipt);
    Regroup(Flat(s.signed), receipt, s.journal);
    Regroup(Flat(s.signed) + receipt, receipt, s.journal);
  }

  /** No receipt is begun while another of the session is in flight. */
  ghost predicate OneAtATime(states: seq<System>, steps: seq<Step>) {
    forall i :: 0 <= i < |steps| && i < |states| && steps[i].Take? && steps[i].token in states[i] ==>
      states[i][steps[i].token].inFlight == []
  }

  lemma {:induction false} OneAtATimeKeepsOrder(states: seq<System>, steps: seq<Step>, i: nat)
    requires Run(states, steps) && OneAtATime(states, steps) && i < |states|
    ensures forall token :: token in states[i] ==> InOrder(states[i][token])
    decreases i
  {
    if i == 0 {
    } else {
      OneAtATimeKeepsOrder(states, steps, i - 1);
      if steps[i - 1].token in states[i - 1] {
        StepKeepsOrder(states[i - 1], steps[i - 1]);
      }
    }
  }

  lemma StepKeepsOrder(sys: System, step: Step)
    requires Enabled(sys, step) && step.token in sys && InOrder(sys[step.token])
    requires step.Take? ==> sys[step.token].inFlight == []
    ensures InOrder(Next(sys, step)[step.token])
  {
    var s := sys[step.token];
    match step {
      case Record(_, effect) => RecordKeepsOrder(s, effect);
      case Take(_) => TakeKeepsOrder(s);
      case Fail(_, _) => EndKeepsOrder(s);
      case Succeed(_, _) => EndKeepsOrder(s);
      case Open(_) =>
    }
  }

  // ----- Order with several receipts in flight -----

  ghost predicate Rising(notes: seq<Noted>) {
    forall i, j :: 0 <= i < j < |notes| ==> notes[i].number < notes[j].number
  }

  /** The journal and every receipt in flight list effects in recording order. */
  ghost predicate Orderly(s: Session) {
    Rising(s.journal) && forall k :: 0 <= k < |s.inFlight| ==> Rising(s.inFlight[k])
  }

  ghost predicate OrderlyThroughout(states: seq<System>) {
    forall i, token :: 0 <= i < |states| && token in states[i] ==> Orderly(states[i][token])
  }

  /** The journal holds an effect older than one of the receipt's. */
  ghost predicate OlderWaits(s: Session, k: nat)
    requires k < |s.inFlight|
  {
    exists x, y :: x in s.journal && y in s.inFlight[k] && x.number < y.number
  }

  /** No receipt is put back while an older effect waits in the journal. */
  ghost predicate NothingOlderWaits(states: seq<System>, steps: seq<Step>)
    requires Run(states, steps)
  {
    forall i :: 0 <= i < |steps| && steps[i].Fail? && steps[i].token in states[i] ==>
      Enabled(states[i], steps[i]) && !OlderWaits(states[i][steps[i].token], steps[i].receipt)
  }

  lemma HeldIsHistory(s: Session, x: Noted)
    requires Conserved(s) && x in Held(s)
    ensures x.number < |s.history| && x == Noted(x.number, s.history[x.number]) && Held(s)[x] == 1
  {
    assert x in Noting(s.history);
    NotedOnce(s.history, x.number);
  }

  lemma {:induction false} InPool(receipts: seq<seq<Noted>>, k: nat, y: Noted)
    requires k < |receipts| && y in receipts[k]
    ensures y in Pool(receipts)
    decreases |receipts|
  {
    var n := |receipts| - 1;
    if k == n {
    } else {
      InPool(receipts[..n], k, y);
    }
  }

  /** Nothing in the journal is in flight as well. */
  lemma JournalIsNotInFlight(s: Session, k: nat, x: Noted, y: Noted)
    requires Conserved(s) && k < |s.inFlight| && x in s.journal && y in s.inFlight[k]
    ensures x.number != y.number
  {
    InPool(s.inFlight, k, y);
    assert x in multiset(s.journal);
    assert x in Held(s) && y in Held(s);
    HeldIsHistory(s, x);
    HeldIsHistory(s, y);
    assert x == y ==> Held(s)[x] >= 2;
  }

  lemma RecordIsOrderly(s: Session, effect: Effect)
    requires Conserved(s) && Orderly(s)
    ensures Orderly(RecordIn(s, effect))
  {
    forall x | x in s.journal
      ensures x.number < |s.history|
    {
      assert x in multiset(s.journal);
      HeldIsHistory(s, x);
    }
  }

  lemma TakeIsOrderly(s: Session)
    requires Orderly(s)
    ensures Orderly(TakeIn(s))
  {
  }

  lemma SucceedIsOrderly(s: Session, k: nat)
    requires Orderly(s) && k < |s.inFlight|
    ensures Orderly(SucceedIn(s, k))
  {
  }

  lemma RisingConcat(a: seq<Noted>, b: seq<Noted>)
    requires Rising(a) && Rising(b)
    requires forall y, x :: y in a && x in b ==> y.number < x.number
    ensures Rising(a + b)
  {
    forall i, j | 0 <= i < j < |a + b|
      ensures (a + b)[i].number < (a + b)[j].number
    {
      if i < |a| <= j {
        assert (a + b)[i] in a && (a + b)[j] in b;
      }
    }
  }

  lemma RisingApart(a: seq<Noted>, b: seq<Noted>, y: Noted, x: Noted)
    requires Rising(a + b) && y in a && x in b
    ensures y.number < x.number
  {
    var j :| 0 <= j < |a| && a[j] == y;
    var i :| 0 <= i < |b| && b[i] == x;
    assert (a + b)[j] == y && (a + b)[|a| + i] == x;
  }

  lemma OthersStayOrderly(s: Session, k: nat)
    requires k < |s.inFlight| && forall j :: 0 <= j < |s.inFlight| ==> Rising(s.inFlight[j])
    ensures forall j :: 0 <= j < |Without(s.inFlight, k)| ==> Rising(Without(s.inFlight, k)[j])
  {
  }

  lemma FailIsOrderlyExactlyWhen(s: Session, k: nat)
    requires Conserved(s) && Orderly(s) && k < |s.inFlight|
    ensures Orderly(FailIn(s, k)) <==> !OlderWaits(s, k)
  {
    OthersStayOrderly(s, k);
    if OlderWaits(s, k) {
      var x, y :| x in s.journal && y in s.inFlight[k] && x.number < y.number;
      if Rising(s.inFlight[k] + s.journal) {
        RisingApart(s.inFlight[k], s.journal, y, x);
      }
    } else {
      forall y, x | y in s.inFlight[k] && x in s.journal
        ensures y.number < x.number
      {
        JournalIsNotInFlight(s, k, x, y);
      }
      RisingConcat(s.inFlight[k], s.journal);
    }
  }

  lemma StepIsOrderlyExactlyWhen(sys: System, step: Step)
    requires Enabled(sys, step) && step.token in sys && Conserved(sys[step.token]) && Orderly(sys[step.token])
    ensures Orderly(Next(sys, step)[step.token]) <==> (step.Fail? ==> !OlderWaits(sys[step.token], step.receipt))
  {
    var s := sys[step.token];
    match step {
      case Record(_, effect) => RecordIsOrderly(s, effect);
      case Take(_) => TakeIsOrderly(s);
      case Fail(_, k) => FailIsOrderlyExactlyWhen(s, k);
      case Succeed(_, k) => SucceedIsOrderly(s, k);
      case Open(_) =>
    }
  }

  lemma {:induction false} OrderIsKept(states: seq<System>, steps: seq<Step>, i: nat, token: string)
    requires Run(states, steps) && NothingOlderWaits(states, steps) && i < |states| && token in states[i]
    ensures Orderly(states[i][token])
    decreases i
  {
    if i == 0 {
    } else {
      var sys, step := states[i - 1], steps[i - 1];
      if token in sys {
        OrderIsKept(states, steps, i - 1, token);
        EveryStateConserves(states, steps, i - 1);
        if token == step.token {
          StepIsOrderlyExactlyWhen(sys, step);
        }
      }
    }
  }

  /** Every journal and every receipt in flight is in recording order throughout
      a run exactly when no receipt is put back while an effect older than one
      of its own waits in the journal. */
  lemma OrderKeptExactlyWhen(states: seq<System>, steps: seq<Step>)
    requires Run(states, steps)
    ensures OrderlyThroughout(states) <==> NothingOlderWaits(states, steps)
  {
    if NothingOlderWaits(states, steps) {
      forall i, token | 0 <= i < |states| && token in states[i]
        ensures Orderly(states[i][token])
      {
        OrderIsKept(states, steps, i, token);
      }
    }
    if OrderlyThroughout(states) {
      forall i | 0 <= i < |steps| && steps[i].Fail? && steps[i].token in states[i]
        ensures Enabled(states[i], steps[i]) && !OlderWaits(states[i][steps[i].token], steps[i].receipt)
      {
        EveryStateConserves(states, steps, i);
        assert states[i + 1] == Next(states[i], steps[i]);
        StepIsOrderlyExactlyWhen(states[i], steps[i]);
      }
    }
  }

  // ----- A schedule that keeps order -----

  /** Of the receipts in flight, only the one begun last is ever put back. */
  ghost predicate NewestFirst(states: seq<System>, steps: seq<Step>) {
    forall i :: 0 <= i < |steps| && i < |states| && steps[i].Fail? && steps[i].token in states[i] ==>
      steps[i].receipt == |states[i][steps[i].token].inFlight| - 1
  }

  /** The receipts in flight, as begun, and then the journal are in order. */
  ghost predicate InLine(s: Session) {
    Rising(Flat(s.inFlight) + s.journal) && forall x :: x in Flat(s.inFlight) + s.journal ==> x.number < |s.history|
  }

  lemma {:induction false} FlatSplits(a: seq<seq<Noted>>, b: seq<seq<Noted>>)
    ensures Flat(a + b) == Flat(a) + Flat(b)
    decreases |b|
  {
    if b == [] {
      assert a + b == a;
    } else {
      var n := |b| - 1;
      assert (a + b)[..|a + b| - 1] == a + b[..n];
      FlatSplits(a, b[..n]);
    }
  }

  lemma FlatWithout(receipts: seq<seq<Noted>>, k: nat)
    requires k < |receipts|
    ensures Flat(receipts) == Flat(receipts[..k]) + receipts[k] + Flat(receipts[k + 1..])
    ensures Flat(Without(receipts, k)) == Flat(receipts[..k]) + Flat(receipts[k + 1..])
  {
    var a, b := receipts[..k], receipts[k + 1..];
    CutInThree(receipts, k);
    FlatSplits(a + [receipts[k]], b);
    FlatGrows(a, receipts[k]);
    FlatSplits(a, b);
  }

  lemma CutInThree<T>(s: seq<T>, k: nat)
    requires k < |s|
    ensures s == s[..k] + [s[k]] + s[k + 1..]
  {
  }

  lemma RisingWithout(a: seq<Noted>, b: seq<Noted>, c: seq<Noted>)
    requires Rising(a + b + c)
    ensures Rising(a + c) && Rising(b)
  {
    var all := a + b + c;
    forall i, j | 0 <= i < j < |a + c|
      ensures (a + c)[i].number < (a + c)[j].number
    {
      var i', j' := if i < |a| then i else i + |b|, if j < |a| then j else j + |b|;
      assert all[i'] == (a + c)[i] && all[j'] == (a + c)[j];
    }
    forall i, j | 0 <= i < j < |b|
      ensures b[i].number < b[j].number
    {
      assert all[|a| + i] == b[i] && all[|a| + j] == b[j];
    }
  }

  lemma RecordStaysInLine(s: Session, effect: Effect)
    requires InLine(s)
    ensures InLine(RecordIn(s, effect))
  {
    var note := Noted(|s.history|, effect);
    Regroup(Flat(s.inFlight), s.journal, [note]);
  }

  lemma TakeStaysInLine(s: Session)
    requires InLine(s)
    ensures InLine(TakeIn(s))
  {
    FlatGrows(s.inFlight, s.journal);
    Regroup(Flat(s.inFlight) + s.journal, [], []);
  }

  lemma FailOfNewestStaysInLine(s: Session)
    requires InLine(s) && s.inFlight != []
    ensures InLine(FailIn(s, |s.inFlight| - 1))
  {
    var n := |s.inFlight| - 1;
    assert Without(s.inFlight, n) == s.inFlight[..n];
    Regroup(Flat(s.inFlight[..n]), s.inFlight[n], s.journal);
  }

  lemma SucceedStaysInLine(s: Session, k: nat)
    requires InLine(s) && k < |s.inFlight|
    ensures InLine(SucceedIn(s, k))
  {
    FlatWithout(s.inFlight, k);
    var a, b, c := Flat(s.inFlight[..k]), s.inFlight[k], Flat(s.inFlight[k + 1..]);
    Regroup(a + b, c, s.journal);
    Regroup(a, c, s.journal);
    RisingWithout(a, b, c + s.journal);
    assert forall x :: x in a + (c + s.journal) ==> x in a + b + (c + s.journal);
  }

  lemma {:induction false} NewestFirstKeepsLine(states: seq<System>, steps: seq<Step>, i: nat, token: string)
    requires Run(states, steps) && NewestFirst(states, steps) && i < |states| && token in states[i]
    ensures InLine(states[i][token])
    decreases i
  {
    if i == 0 {
    } else {
      var sys, step := states[i - 1], steps[i - 1];
      if token in sys {
        NewestFirstKeepsLine(states, steps, i - 1, token);
        if token == step.token {
          StepStaysInLine(sys, step);
        }
      }
    }
  }

  lemma StepStaysInLine(sys: System, step: Step)
    requires Enabled(sys, step) && step.token in sys && InLine(sys[step.token])
    requires step.Fail? ==> step.receipt == |sys[step.token].inFlight| - 1
    ensures InLine(Next(sys, step)[step.token])
  {
    var s := sys[step.token];
    match step {
      case Record(_, effect) => RecordStaysInLine(s, effect);
      case Take(_) => TakeStaysInLine(s);
      case Fail(_, _) => FailOfNewestStaysInLine(s);
      case Succeed(_, k) => SucceedStaysInLine(s, k);
      case Open(_) =>
    }
  }

  /** Putting back only the newest receipt in flight keeps every journal in
      recording order, however many are in flight. */
  lemma NewestFirstKeepsOrder(states: seq<System>, steps: seq<Step>, i: nat, token: string)
    requires Run(states, steps) && NewestFirst(states, steps) && i < |states| && token in states[i]
    ensures Rising(states[i][token].journal)
  {
    NewestFirstKeepsLine(states, steps, i, token);
    var s := states[i][token];
    Regroup(Flat(s.inFlight) + s.journal, [], []);
    RisingWithout(Flat(s.inFlight), s.journal, []);
  }

  /** Two receipts in flight that fail in the order they were begun leave the
      journal with the later effect first, in a run from the start. */
  lemma TwoInFlightCanReorder(token: string, a: Effect, b: Effect)
    ensures exists states: seq<System>, steps: seq<Step> ::
              && Run(states, steps) && |states| == 8 && token in states[7]
              && steps == [Open(token), Record(token, a), Take(token), Record(token, b), Take(token),
                           Fail(token, 0), Fail(token, 0)]
              && states[7][token].journal == [Noted(1, b), Noted(0, a)]
  {
    var steps := [Open(token), Record(token, a), Take(token), Record(token, b), Take(token), Fail(token, 0), Fail(token, 0)];
    var begun, failed := BothBegun(a, b), FailIn(BothBegun(a, b), 0);
    SessionReorders(a, b);
    var s0: System := map[];
    var s1 := Next(s0, steps[0]);
    var s2 := Next(s1, steps[1]);
    var s3 := Next(s2, steps[2]);
    var s4 := Next(s3, steps[3]);
    var s5 := Next(s4, steps[4]);
    assert s5[token] == begun;
    var s6 := Next(s5, steps[5]);
    assert s6[token] == failed;
    var s7 := Next(s6, steps[6]);
    assert s7[token] == FailIn(failed, 0);
    assert Run([s0, s1, s2, s3, s4, s5, s6, s7], steps);
  }

  function BothBegun(a: Effect, b: Effect): Session {
    TakeIn(RecordIn(TakeIn(RecordIn(Session([], [], [], []), a)), b))
  }

  lemma SessionReorders(a: Effect, b: Effect)
    ensures |BothBegun(a, b).inFlight| == 2
    ensures FailIn(FailIn(BothBegun(a, b), 0), 0).journal == [Noted(1, b), Noted(0, a)]
  {
  }
}
