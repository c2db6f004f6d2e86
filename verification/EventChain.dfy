/** The hash chain over a run's events, and its replay (crates/store/src/lib.rs). */
module EventChain {
  import opened Common
  import opened EventStores

  // ----- The hashed text has one reading -----

  lemma DecimalDigits(n: nat)
    ensures Decimal(n) != []
    ensures forall i :: 0 <= i < |Decimal(n)| ==> '0' <= Decimal(n)[i] <= '9'
  {
    if n >= 10 {
      DecimalDigits(n / 10);
    }
  }

  lemma DecimalEnds(n: nat)
    ensures n < 10 ==> Decimal(n) == [Digit(n)]
    ensures n >= 10 ==> |Decimal(n)| > 1 && Decimal(n)[..|Decimal(n)| - 1] == Decimal(n / 10)
    ensures Decimal(n) != [] && Decimal(n)[|Decimal(n)| - 1] == Digit(n % 10)
  {
    if n >= 10 {
      DecimalDigits(n / 10);
    }
  }

  lemma {:induction false} DecimalIsInjective(m: nat, n: nat)
    requires Decimal(m) == Decimal(n)
    ensures m == n
    decreases m
  {
    DecimalEnds(m);
    DecimalEnds(n);
    assert Digit(m % 10) == Digit(n % 10);
    DigitIsInjective(m % 10, n % 10);
    assert m < 10 <==> n < 10;
    if m >= 10 {
      DecimalIsInjective(m / 10, n / 10);
    }
  }

  lemma DigitIsInjective(d: nat, e: nat)
    requires d < 10 && e < 10 && Digit(d) == Digit(e)
    ensures d == e
  {
  }

  lemma NoColonInDecimal(n: nat)
    ensures ':' !in Decimal(n)
  {
    DecimalDigits(n);
  }

  /** The first colon splits a text in one way only. */
  lemma {:induction false} FirstColonSplits(a: string, x: string, b: string, y: string)
    requires ':' !in a && ':' !in b && a + [':'] + x == b + [':'] + y
    ensures a == b && x == y
    decreases |a|
  {
    var s, t := a + [':'] + x, b + [':'] + y;
    if a == [] || b == [] {
      assert s[0] == t[0];
      assert a == [] ==> s[0] == ':';
      assert b == [] ==> t[0] == ':';
      assert a == [] && b == [];
      assert s[1..] == x && t[1..] == y;
    } else {
      assert s[1..] == a[1..] + [':'] + x && t[1..] == b[1..] + [':'] + y;
      assert s[0] == t[0];
      FirstColonSplits(a[1..], x, b[1..], y);
      assert a == [a[0]] + a[1..] && b == [b[0]] + b[1..];
    }
  }

  /** The last of any mark splits a text in one way only. */
  lemma {:induction false} LastMarkSplits(mark: char, a: string, x: string, b: string, y: string)
    requires mark !in x && mark !in y && a + [mark] + x == b + [mark] + y
    ensures a == b && x == y
    decreases |x|
  {
    var s, t := a + [mark] + x, b + [mark] + y;
    assert s[|s| - 1] == t[|t| - 1];
    if x == [] || y == [] {
      assert x == [] ==> s[|s| - 1] == mark;
      assert y == [] ==> t[|t| - 1] == mark;
      assert x == [] && y == [];
      assert s[..|s| - 1] == a && t[..|t| - 1] == b;
    } else {
      var x', y' := x[..|x| - 1], y[..|y| - 1];
      assert s[..|s| - 1] == a + [mark] + x' && t[..|t| - 1] == b + [mark] + y';
      LastMarkSplits(mark, a, x', b, y');
      assert x == x' + [x[|x| - 1]] && y == y' + [y[|y| - 1]];
    }
  }

  lemma EqualLengthPrefix(a: string, x: string, b: string, y: string)
    requires |a| == |b| && a + x == b + y
    ensures a == b && x == y
  {
    assert (a + x)[..|a|] == a && (b + y)[..|b|] == b;
    assert (a + x)[|a|..] == x && (b + y)[|b|..] == y;
  }

  lemma EqualLengthSuffix(a: string, x: string, b: string, y: string)
    requires |x| == |y| && a + x == b + y
    ensures a == b && x == y
  {
    assert |a| == |b|;
    EqualLengthPrefix(a, x, b, y);
  }

  /** What follows the previous hash and the run in the hashed text. */
  function Tail(sequence: nat, typeUrl: string, timestampMs: nat, payloadHash: string): string {
    Decimal(sequence) + [':'] + (typeUrl + [':'] + Decimal(timestampMs) + ([':'] + payloadHash))
  }

  lemma HashTextParts(prev: string, runId: string, sequence: nat, typeUrl: string, timestampMs: nat, payloadHash: string)
    ensures HashText(prev, runId, sequence, typeUrl, timestampMs, payloadHash) ==
            prev + ([':'] + (runId + [':'] + Tail(sequence, typeUrl, timestampMs, payloadHash)))
  {
  }

  lemma TailHasOneReading(n1: nat, u1: string, t1: nat, p1: string, n2: nat, u2: string, t2: nat, p2: string)
    requires |p1| == |p2| && Tail(n1, u1, t1, p1) == Tail(n2, u2, t2, p2)
    ensures n1 == n2 && u1 == u2 && t1 == t2 && p1 == p2
  {
    var r1, r2 := u1 + [':'] + Decimal(t1), u2 + [':'] + Decimal(t2);
    NoColonInDecimal(n1);
    NoColonInDecimal(n2);
    FirstColonSplits(Decimal(n1), r1 + ([':'] + p1), Decimal(n2), r2 + ([':'] + p2));
    DecimalIsInjective(n1, n2);
    EqualLengthSuffix(r1, [':'] + p1, r2, [':'] + p2);
    assert ([':'] + p1)[1..] == p1 && ([':'] + p2)[1..] == p2;
    NoColonInDecimal(t1);
    NoColonInDecimal(t2);
    LastMarkSplits(':', u1, Decimal(t1), u2, Decimal(t2));
    DecimalIsInjective(t1, t2);
  }

  /** `longer` is `run` followed by a colon and a decimal numeral, which ends it
      or is followed by another colon. */
  ghost predicate Continues(run: string, longer: string) {
    exists n: nat, rest: string :: n <= I64_MAX && ContinuesWith(run, longer, n, rest)
  }

  predicate ContinuesWith(run: string, longer: string, n: nat, rest: string) {
    longer == run + [':'] + Decimal(n) || longer == run + [':'] + (Decimal(n) + [':'] + rest)
  }

  /** What precedes the first colon of a text, and what follows it. */
  lemma FirstColon(s: string) returns (a: string, b: string)
    requires ':' in s
    ensures s == a + [':'] + b && ':' !in a
  {
    if s[0] == ':' {
      a, b := [], s[1..];
    } else {
      assert ':' in s[1..];
      a, b := FirstColon(s[1..]);
      a := [s[0]] + a;
    }
  }

  /** A run id that is a proper start of another run's hashed text continues it. */
  lemma ShorterRunIsContinued(r: string, tail: string, n: nat, more: string, s: string, other: string)
    requires |r| < |s| && n <= I64_MAX
    requires tail == Decimal(n) + [':'] + more && r + [':'] + tail == s + [':'] + other
    ensures Continues(r, s)
  {
    var x := s[|r| + 1..];
    var whole := s + [':'] + other;
    assert whole[..|r|] == r && whole[|r|] == ':' && whole[|r| + 1..] == tail;
    assert s == r + [':'] + x && tail == x + [':'] + other;
    NoColonInDecimal(n);
    if ':' in x {
      var a, b := FirstColon(x);
      assert tail == a + [':'] + (b + [':'] + other);
      FirstColonSplits(Decimal(n), more, a, b + [':'] + other);
      assert ContinuesWith(r, s, n, b);
    } else {
      FirstColonSplits(Decimal(n), more, x, other);
      assert ContinuesWith(r, s, n, "");
    }
  }

  /** Two events, one of each run, are hashed from one text. */
  predicate ShareText(a: EventRecord, b: EventRecord, pa: string, pb: string) {
    && |a.prevEventHash| == |b.prevEventHash| && |pa| == |pb|
    && HashText(a.prevEventHash, a.runId, a.sequence, a.typeUrl, a.timestampMs, pa) ==
       HashText(b.prevEventHash, b.runId, b.sequence, b.typeUrl, b.timestampMs, pb)
  }

  lemma SharedTextFromRun(a: EventRecord, b: EventRecord, pa: string, pb: string)
    requires ShareText(a, b, pa, pb)
    ensures a.prevEventHash == b.prevEventHash
    ensures a.runId + [':'] + Tail(a.sequence, a.typeUrl, a.timestampMs, pa) ==
            b.runId + [':'] + Tail(b.sequence, b.typeUrl, b.timestampMs, pb)
  {
    HashTextParts(a.prevEventHash, a.runId, a.sequence, a.typeUrl, a.timestampMs, pa);
    HashTextParts(b.prevEventHash, b.runId, b.sequence, b.typeUrl, b.timestampMs, pb);
    var ra := a.runId + [':'] + Tail(a.sequence, a.typeUrl, a.timestampMs, pa);
    var rb := b.runId + [':'] + Tail(b.sequence, b.typeUrl, b.timestampMs, pb);
    EqualLengthPrefix(a.prevEventHash, [':'] + ra, b.prevEventHash, [':'] + rb);
    EqualLengthPrefix([':'], ra, [':'], rb);
  }

  lemma SharedTextContinues(a: EventRecord, b: EventRecord, pa: string, pb: string)
    requires ShareText(a, b, pa, pb) && a.sequence <= I64_MAX && b.sequence <= I64_MAX
    ensures a.runId == b.runId || Continues(a.runId, b.runId) || Continues(b.runId, a.runId)
  {
    SharedTextFromRun(a, b, pa, pb);
    var ta, tb := Tail(a.sequence, a.typeUrl, a.timestampMs, pa), Tail(b.sequence, b.typeUrl, b.timestampMs, pb);
    var ma := a.typeUrl + [':'] + Decimal(a.timestampMs) + ([':'] + pa);
    var mb := b.typeUrl + [':'] + Decimal(b.timestampMs) + ([':'] + pb);
    if |a.runId| < |b.runId| {
      ShorterRunIsContinued(a.runId, ta, a.sequence, ma, b.runId, tb);
    } else if |b.runId| < |a.runId| {
      ShorterRunIsContinued(b.runId, tb, b.sequence, mb, a.runId, ta);
    } else {
      var ra, rb := a.runId + [':'] + ta, b.runId + [':'] + tb;
      assert ra[..|a.runId|] == a.runId && rb[..|b.runId|] == b.runId;
    }
  }

  /** Two events of one run, or of runs neither of whose ids continues the
      other, are hashed from the same text only when every hashed field agrees,
      although neither the run id nor the type is escaped. */
  lemma HashTextHasOneReading(a: EventRecord, b: EventRecord, pa: string, pb: string)
    requires ShareText(a, b, pa, pb)
    requires a.runId == b.runId ||
             (&& a.sequence <= I64_MAX && b.sequence <= I64_MAX
              && !Continues(a.runId, b.runId) && !Continues(b.runId, a.runId))
    ensures a.prevEventHash == b.prevEventHash && a.runId == b.runId && a.sequence == b.sequence
    ensures a.typeUrl == b.typeUrl && a.timestampMs == b.timestampMs && pa == pb
  {
    if a.runId != b.runId {
      SharedTextContinues(a, b, pa, pb);
    }
    SharedTextFromRun(a, b, pa, pb);
    EqualLengthPrefix(a.runId + [':'], Tail(a.sequence, a.typeUrl, a.timestampMs, pa),
                      b.runId + [':'], Tail(b.sequence, b.typeUrl, b.timestampMs, pb));
    TailHasOneReading(a.sequence, a.typeUrl, a.timestampMs, pa, b.sequence, b.typeUrl, b.timestampMs, pb);
  }

  /** A continued run id does pass for a run id and a sequence number, whatever
      the previous hash, the time and the payload. */
  lemma ContinuedRunShares(r: string, s: string, n: nat, rest: string, prev: string, timestampMs: nat, payloadHash: string)
    returns (a: EventRecord, b: EventRecord)
    requires n <= I64_MAX && ContinuesWith(r, s, n, rest)
    ensures ShareOf(r, s, a, b, payloadHash, payloadHash)
    ensures a.prevEventHash == b.prevEventHash == prev && a.timestampMs == b.timestampMs == timestampMs
  {
    b := EventRecord("", s, 0, "x", timestampMs, [], prev, "");
    if s == r + [':'] + Decimal(n) {
      a := EventRecord("", r, n, "0:x", timestampMs, [], prev, "");
      EndingNumeralShares(r, n, prev, timestampMs, payloadHash);
    } else {
      a := EventRecord("", r, n, rest + ":0:x", timestampMs, [], prev, "");
      InnerNumeralShares(r, n, rest, prev, timestampMs, payloadHash);
    }
  }

  lemma EndingNumeralShares(r: string, n: nat, prev: string, timestampMs: nat, payloadHash: string)
    ensures HashText(prev, r, n, "0:x", timestampMs, payloadHash)
         == HashText(prev, r + [':'] + Decimal(n), 0, "x", timestampMs, payloadHash)
  {
    assert Decimal(0) == "0" && "0:x" == "0" + ":" + "x";
    TypeMoves(prev + ":", r, Decimal(n), Decimal(0), "x", ":" + Decimal(timestampMs) + ":" + payloadHash);
    TextFromPieces(prev, r, n, "0:x", timestampMs, payloadHash);
    TextFromPieces(prev, r + [':'] + Decimal(n), 0, "x", timestampMs, payloadHash);
  }

  lemma InnerNumeralShares(r: string, n: nat, rest: string, prev: string, timestampMs: nat, payloadHash: string)
    ensures HashText(prev, r, n, rest + ":0:x", timestampMs, payloadHash)
         == HashText(prev, r + [':'] + (Decimal(n) + [':'] + rest), 0, "x", timestampMs, payloadHash)
  {
    assert Decimal(0) == "0" && ":0:x" == ":" + "0" + ":" + "x";
    TypeAndRestMove(prev + ":", r, Decimal(n), rest, Decimal(0), "x", ":" + Decimal(timestampMs) + ":" + payloadHash);
    TextFromPieces(prev, r, n, rest + ":0:x", timestampMs, payloadHash);
    TextFromPieces(prev, r + [':'] + (Decimal(n) + [':'] + rest), 0, "x", timestampMs, payloadHash);
  }

  lemma TextFromPieces(prev: string, runId: string, sequence: nat, typeUrl: string, timestampMs: nat, payloadHash: string)
    ensures HashText(prev, runId, sequence, typeUrl, timestampMs, payloadHash) ==
            (prev + ":") + runId + ":" + Decimal(sequence) + ":" + typeUrl + (":" + Decimal(timestampMs) + ":" + payloadHash)
  {
  }

  lemma TypeMoves(front: string, run: string, number: string, zero: string, typeUrl: string, end: string)
    ensures front + run + ":" + number + ":" + (zero + ":" + typeUrl) + end ==
            front + (run + [':'] + number) + ":" + zero + ":" + typeUrl + end
  {
  }

  lemma TypeAndRestMove(front: string, run: string, number: string, rest: string, zero: string, typeUrl: string, end: string)
    ensures front + run + ":" + number + ":" + (rest + (":" + zero + ":" + typeUrl)) + end ==
            front + (run + [':'] + (number + [':'] + rest)) + ":" + zero + ":" + typeUrl + end
  {
  }

  predicate ShareOf(r: string, s: string, a: EventRecord, b: EventRecord, pa: string, pb: string) {
    a.runId == r && b.runId == s && a.sequence <= I64_MAX && b.sequence <= I64_MAX && ShareText(a, b, pa, pb)
  }

  ghost predicate CanShareText(r: string, s: string) {
    exists a: EventRecord, b: EventRecord, pa, pb :: ShareOf(r, s, a, b, pa, pb)
  }

  /** Events of two runs can be hashed from one text exactly when one run's id
      continues the other's with a numeral. */
  lemma RunsShareTextExactlyWhen(r: string, s: string)
    requires r != s
    ensures CanShareText(r, s) <==> Continues(r, s) || Continues(s, r)
  {
    if CanShareText(r, s) {
      var a: EventRecord, b: EventRecord, pa, pb :| ShareOf(r, s, a, b, pa, pb);
      SharedTextContinues(a, b, pa, pb);
    }
    if Continues(r, s) {
      var n: nat, rest :| n <= I64_MAX && ContinuesWith(r, s, n, rest);
      var a, b := ContinuedRunShares(r, s, n, rest, "", 0, "");
      assert ShareOf(r, s, a, b, "", "");
    }
    if Continues(s, r) {
      var n: nat, rest :| n <= I64_MAX && ContinuesWith(s, r, n, rest);
      var b, a := ContinuedRunShares(s, r, n, rest, "", 0, "");
      assert ShareOf(r, s, a, b, "", "");
    }
  }

  /** For one: a run `a` and a run `a:1`. */
  lemma RunIdsCanCollide()
    ensures CanShareText("a", "a:1")
  {
    assert Decimal(1) == "1" && "a:1" == "a" + [':'] + "1";
    assert ContinuesWith("a", "a:1", 1, "");
    RunsShareTextExactlyWhen("a", "a:1");
  }

  // ----- The chain, which starts from sixty-four zeros -----

  function LastHash(events: seq<EventRecord>): string {
    if events == [] then NULL_HASH else events[|events| - 1].eventHash
  }

  /** Each event carries the hash of the one before it, and its own hash holds. */
  predicate ChainHolds(events: seq<EventRecord>, sha: Sha) {
    if events == [] then true
    else
      var front, last := events[..|events| - 1], events[|events| - 1];
      ChainHolds(front, sha) && last.prevEventHash == LastHash(front) && VerifyIntegrity(last, sha)
  }

  ghost predicate OfRun(events: seq<EventRecord>, run: string) {
    forall i :: 0 <= i < |events| ==> events[i].runId == run
  }

  function HashedText(e: EventRecord, sha: Sha): Bytes {
    HashText(e.prevEventHash, e.runId, e.sequence, e.typeUrl, e.timestampMs, sha(e.payload))
  }

  /** Everything that is hashed to check a log. */
  ghost function HashedInputs(events: seq<EventRecord>, sha: Sha): set<Bytes> {
    (set e | e in events :: e.payload) + (set e | e in events :: HashedText(e, sha))
  }

  ghost predicate HexDigests(sha: Sha) {
    forall x :: |sha(x)| == 64
  }

  ghost predicate NeverGenesisOn(sha: Sha, inputs: set<Bytes>) {
    forall x :: x in inputs ==> sha(x) != NULL_HASH
  }

  predicate SameButId(a: EventRecord, b: EventRecord) {
    a == b.(eventId := a.eventId)
  }

  lemma HashLengths(events: seq<EventRecord>, sha: Sha)
    requires ChainHolds(events, sha) && HexDigests(sha)
    ensures |LastHash(events)| == 64
    ensures events != [] ==> |events[|events| - 1].prevEventHash| == 64
  {
    if events == [] {
    } else {
      HashLengths(events[..|events| - 1], sha);
    }
  }

  lemma LastInputs(events: seq<EventRecord>, sha: Sha)
    requires events != []
    ensures var last := events[|events| - 1];
            last.payload in HashedInputs(events, sha) && HashedText(last, sha) in HashedInputs(events, sha)
    ensures HashedInputs(events[..|events| - 1], sha) <= HashedInputs(events, sha)
  {
    assert events[|events| - 1] in events;
  }

  /** Equal event hashes, without a collision, mean equal hashed fields. */
  lemma SameHashSameEvent(x: EventRecord, y: EventRecord, sha: Sha, inputs: set<Bytes>)
    requires VerifyIntegrity(x, sha) && VerifyIntegrity(y, sha) && x.runId == y.runId
    requires |x.prevEventHash| == |y.prevEventHash| && HexDigests(sha) && CollisionFreeOn(sha, inputs)
    requires x.payload in inputs && y.payload in inputs && HashedText(x, sha) in inputs && HashedText(y, sha) in inputs
    requires x.eventHash == y.eventHash
    ensures SameButId(x, y)
  {
    assert HashedText(x, sha) == HashedText(y, sha);
    HashTextHasOneReading(x, y, sha(x.payload), sha(y.payload));
    assert x.payload == y.payload;
  }

  /** What a log that checks out says of its last event and of the rest. */
  lemma LastAndFront(events: seq<EventRecord>, run: string, sha: Sha, inputs: set<Bytes>)
    requires ChainHolds(events, sha) && OfRun(events, run) && HashedInputs(events, sha) <= inputs
    requires HexDigests(sha) && NeverGenesisOn(sha, inputs) && events != []
    ensures var last, front := events[|events| - 1], events[..|events| - 1];
            && VerifyIntegrity(last, sha) && last.runId == run && last.eventHash == LastHash(events) != NULL_HASH
            && last.payload in inputs && HashedText(last, sha) in inputs
            && |last.prevEventHash| == 64 && last.prevEventHash == LastHash(front)
            && ChainHolds(front, sha) && OfRun(front, run) && HashedInputs(front, sha) <= inputs
  {
    LastInputs(events, sha);
    HashLengths(events, sha);
  }

  /** The head of a chain commits to the whole log: two logs of one run that
      both check out and end in the same hash are the same log, event ids aside,
      unless what is hashed to check them holds a collision. */
  lemma {:induction false} HeadCommitsToLog(a: seq<EventRecord>, b: seq<EventRecord>, run: string, sha: Sha, inputs: set<Bytes>)
    requires ChainHolds(a, sha) && ChainHolds(b, sha) && OfRun(a, run) && OfRun(b, run)
    requires HexDigests(sha)
    requires HashedInputs(a, sha) <= inputs && HashedInputs(b, sha) <= inputs
    requires CollisionFreeOn(sha, inputs) && NeverGenesisOn(sha, inputs)
    requires LastHash(a) == LastHash(b)
    ensures |a| == |b|
    ensures forall i :: 0 <= i < |a| ==> SameButId(a[i], b[i])
    decreases |a|
  {
    if a != [] {
      LastAndFront(a, run, sha, inputs);
    }
    if b != [] {
      LastAndFront(b, run, sha, inputs);
    }
    if a != [] && b != [] {
      var x, y := a[|a| - 1], b[|b| - 1];
      SameHashSameEvent(x, y, sha, inputs);
      HeadCommitsToLog(a[..|a| - 1], b[..|b| - 1], run, sha, inputs);
      AgreeWithLast(a[..|a| - 1], b[..|b| - 1], x, y);
      SplitLast(a);
      SplitLast(b);
    }
  }

  lemma AgreeWithLast(a: seq<EventRecord>, b: seq<EventRecord>, x: EventRecord, y: EventRecord)
    requires |a| == |b| && SameButId(x, y) && forall i :: 0 <= i < |a| ==> SameButId(a[i], b[i])
    ensures forall i :: 0 <= i < |a + [x]| ==> SameButId((a + [x])[i], (b + [y])[i])
  {
  }

  // ----- Replay -----

  datatype RunState =
    | Queued | RunningModel | WaitingForApproval | RunningTool | NeedsReconciliation | Completed | Failed

  datatype RunSummary = RunSummary(lastSequence: nat, state: RunState, lastEventHash: string, totalEvents: nat)

  predicate Contains(s: string, part: string) {
    part <= s || (s != [] && Contains(s[1..], part))
  }

  /** Containing is having it somewhere. */
  lemma {:induction false} ContainsExactlyWhen(s: string, part: string)
    ensures Contains(s, part) <==> exists front, back :: s == front + part + back
    decreases |s|
  {
    if part <= s {
      assert s == [] + part + s[|part|..];
    } else if s == [] {
    } else {
      ContainsExactlyWhen(s[1..], part);
      if Contains(s, part) {
        var front, back :| s[1..] == front + part + back;
        assert s == ([s[0]] + front) + part + back;
      }
      if front, back :| s == front + part + back {
        assert front == [] ==> part <= s;
        assert s[1..] == front[1..] + part + back;
      }
    }
  }

  /** The state after an event, by what its type mentions. */
  function Transition(state: RunState, typeUrl: string, payload: Bytes): RunState {
    if Contains(typeUrl, "ToolProposed") || Contains(typeUrl, "ApprovalRequested") then WaitingForApproval
    else if Contains(typeUrl, "ToolStarted") then RunningTool
    else if Contains(typeUrl, "ToolFinished") then RunningModel
    else if Contains(typeUrl, "RunStateChanged") then
      if Contains(payload, "completed") then Completed
      else if Contains(payload, "failed") then Failed
      else if Contains(payload, "needs_reconciliation") then NeedsReconciliation
      else state
    else state
  }

  function StateOf(events: seq<EventRecord>): RunState {
    if events == [] then Queued
    else
      var last := events[|events| - 1];
      Transition(StateOf(events[..|events| - 1]), last.typeUrl, last.payload)
  }

  /** How many events from the start check out. */
  function Checked(events: seq<EventRecord>, sha: Sha): (n: nat)
    ensures n <= |events|
  {
    if events == [] then 0
    else
      var front, last := events[..|events| - 1], events[|events| - 1];
      var n := Checked(front, sha);
      if n == |front| && last.prevEventHash == LastHash(front) && VerifyIntegrity(last, sha) then |events| else n
  }

  lemma AllCheckedIsChain(events: seq<EventRecord>, sha: Sha)
    ensures Checked(events, sha) == |events| <==> ChainHolds(events, sha)
  {
    if events == [] {
    } else {
      AllCheckedIsChain(events[..|events| - 1], sha);
    }
  }

  lemma {:induction false} CheckedStopsAtFirstBad(events: seq<EventRecord>, k: nat, sha: Sha)
    requires k < |events| && ChainHolds(events[..k], sha) && !ChainHolds(events[..k + 1], sha)
    ensures Checked(events, sha) == k
    decreases |events|
  {
    if k + 1 == |events| {
      assert events[..k + 1] == events && events[..k] == events[..|events| - 1];
      AllCheckedIsChain(events[..k], sha);
      AllCheckedIsChain(events, sha);
    } else {
      var front := events[..|events| - 1];
      assert front[..k] == events[..k] && front[..k + 1] == events[..k + 1];
      CheckedStopsAtFirstBad(front, k, sha);
    }
  }

  function SummaryOf(events: seq<EventRecord>, sha: Sha): RunSummary {
    var n := Checked(events, sha);
    RunSummary(
      if n == 0 then 0 else events[n - 1].sequence,
      if n == |events| then StateOf(events) else NeedsReconciliation,
      LastHash(events[..n]),
      |events|)
  }

  /** The first `n` events check out, and the next one does not. */
  predicate FirstBad(events: seq<EventRecord>, n: nat, sha: Sha) {
    && n <= |events| && ChainHolds(events[..n], sha)
    && (n < |events| ==>
          || events[n].prevEventHash != (if n == 0 then NULL_HASH else events[n - 1].eventHash)
          || events[n].eventHash != CalculateHash(events[n], sha))
  }

  /** What a summary says when exactly the first `n` events check out: it ends
      with the last of them, and asks for reconciliation if more are stored. */
  ghost predicate ReportsUpTo(summary: RunSummary, events: seq<EventRecord>, n: nat, sha: Sha) {
    && FirstBad(events, n, sha)
    && (n < |events| ==> summary.state == NeedsReconciliation)
    && (n == |events| ==> summary.state == StateOf(events))
    && summary.lastSequence == (if n == 0 then 0 else events[n - 1].sequence)
    && summary.lastEventHash == (if n == 0 then NULL_HASH else events[n - 1].eventHash)
    && summary.totalEvents == |events|
  }

  ghost predicate Reports(summary: RunSummary, events: seq<EventRecord>, sha: Sha) {
    exists n: nat :: ReportsUpTo(summary, events, n, sha)
  }

  /** Replay of any log reports up to the first event that does not follow from
      the one before it, or does not carry its own hash. */
  lemma LogIsReportedUpToFirstBad(events: seq<EventRecord>, sha: Sha)
    ensures Reports(SummaryOf(events, sha), events, sha)
  {
    CheckedIsLongestChain(events, sha);
    var n := Checked(events, sha);
    if n < |events| {
      assert events[..n + 1][..n] == events[..n];
    } else {
      assert events[..n] == events;
    }
    assert ReportsUpTo(SummaryOf(events, sha), events, n, sha);
  }

  lemma {:induction false} CheckedIsLongestChain(events: seq<EventRecord>, sha: Sha)
    ensures ChainHolds(events[..Checked(events, sha)], sha)
    ensures Checked(events, sha) < |events| ==> !ChainHolds(events[..Checked(events, sha) + 1], sha)
    decreases |events|
  {
    if events == [] {
    } else {
      var front := events[..|events| - 1];
      CheckedIsLongestChain(front, sha);
      AllCheckedIsChain(events, sha);
      assert events[..|events|] == events && front[..|front|] == front;
      var n := Checked(front, sha);
      assert front[..n] == events[..n];
      if n < |front| {
        assert front[..n + 1] == events[..n + 1];
      }
    }
  }

  /** How far a log checks out is determined by the log. */
  lemma FirstBadIsOnePlace(events: seq<EventRecord>, n: nat, m: nat, sha: Sha)
    requires FirstBad(events, n, sha) && FirstBad(events, m, sha)
    ensures n == m
  {
    if n < m {
      NoneBadWithinChain(events, n, m, sha);
    } else if m < n {
      NoneBadWithinChain(events, m, n, sha);
    }
  }

  lemma NoneBadWithinChain(events: seq<EventRecord>, n: nat, m: nat, sha: Sha)
    requires n < m <= |events| && ChainHolds(events[..m], sha)
    ensures !FirstBad(events, n, sha)
  {
    LongerChainHoldsPart(events, n + 1, m, sha);
    var part := events[..n + 1];
    assert part[..n] == events[..n] && part[n] == events[n];
  }

  lemma {:induction false} LongerChainHoldsPart(events: seq<EventRecord>, n: nat, m: nat, sha: Sha)
    requires n <= m <= |events| && ChainHolds(events[..m], sha)
    ensures ChainHolds(events[..n], sha)
    decreases m
  {
    if n == m {
    } else {
      assert events[..m][..m - 1] == events[..m - 1];
      LongerChainHoldsPart(events, n, m - 1, sha);
    }
  }

  /** Replays a run's stored events. */
  method ReplayRun(store: EventStore, run: string) returns (summary: RunSummary)
    ensures summary == SummaryOf(GetEvents(store.log, run, 0), store.sha)
    ensures Reports(summary, GetEvents(store.log, run, 0), store.sha)
  {
    var events := GetEvents(store.log, run, 0);
    summary := ReplayEvents(events, store.sha);
    LogIsReportedUpToFirstBad(events, store.sha);
  }

  /** Replays events, stopping at the first that does not check out. */
  method ReplayEvents(events: seq<EventRecord>, sha: Sha) returns (summary: RunSummary)
    ensures summary == SummaryOf(events, sha)
  {
    var expectedPrev := NULL_HASH;
    var state := Queued;
    var lastSequence := 0;
    var lastHash := NULL_HASH;
    for i := 0 to |events|
      invariant ChainHolds(events[..i], sha)
      invariant expectedPrev == lastHash == LastHash(events[..i])
      invariant state == StateOf(events[..i])
      invariant lastSequence == if i == 0 then 0 else events[i - 1].sequence
    {
      var event := events[i];
      assert events[..i + 1][..i] == events[..i];
      if event.prevEventHash != expectedPrev {
        CheckedStopsAtFirstBad(events, i, sha);
        return RunSummary(lastSequence, NeedsReconciliation, lastHash, |events|);
      }
      if !VerifyIntegrity(event, sha) {
        CheckedStopsAtFirstBad(events, i, sha);
        return RunSummary(lastSequence, NeedsReconciliation, lastHash, |events|);
      }
      state := Transition(state, event.typeUrl, event.payload);
      expectedPrev := event.eventHash;
      lastHash := event.eventHash;
      lastSequence := event.sequence;
    }
    assert events[..|events|] == events;
    AllCheckedIsChain(events, sha);
    return RunSummary(lastSequence, state, lastHash, |events|);
  }
}
