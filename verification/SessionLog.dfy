/** Facts about a session's stored events: how they are numbered, and what
    replaying them from the store returns. */
module SessionLog {
  import opened Common
  import opened EventStores
  import opened EventStream

  lemma OfAppend(log: seq<EventRecord>, e: EventRecord, runs: seq<string>)
    ensures Of(log + [e], runs) == Of(log, runs) + if e.runId in runs then [e] else []
  {
    assert (log + [e])[..|log|] == log;
  }

  lemma OfMembers(log: seq<EventRecord>, runs: seq<string>, e: EventRecord)
    ensures e in Of(log, runs) <==> e in log && e.runId in runs
  {
    if log == [] {
    } else {
      OfMembers(log[..|log| - 1], runs, e);
      assert log == log[..|log| - 1] + [log[|log| - 1]];
    }
  }

  lemma {:induction false} OfPrefix(log: seq<EventRecord>, n: nat, runs: seq<string>)
    requires n <= |log|
    ensures Of(log[..n], runs) <= Of(log, runs)
    decreases |log|
  {
    if n == |log| {
      assert log[..n] == log;
    } else {
      var front := log[..|log| - 1];
      assert front[..n] == log[..n];
      OfPrefix(front, n, runs);
    }
  }

  /** Two run lists that the logged events do not tell apart select the same. */
  lemma {:induction false} OfSame(log: seq<EventRecord>, runs: seq<string>, others: seq<string>)
    requires forall i :: 0 <= i < |log| ==> (log[i].runId in runs <==> log[i].runId in others)
    ensures Of(log, runs) == Of(log, others)
    decreases |log|
  {
    if log == [] {
    } else {
      OfSame(log[..|log| - 1], runs, others);
    }
  }

  /** The events of an initial part of the runs come first. */
  lemma {:induction false} EarlierRunsComeFirst(log: seq<EventRecord>, runs: seq<string>, k: nat)
    requires k <= |runs| && RunsInOrder(Of(log, runs), runs)
    ensures Of(log, runs[..k]) <= Of(log, runs)
    decreases |log|
  {
    if log == [] {
    } else {
      var front, e := log[..|log| - 1], log[|log| - 1];
      var F := Of(log, runs);
      OfPrefix(log, |log| - 1, runs);
      assert RunsInOrder(Of(front, runs), runs);
      EarlierRunsComeFirst(front, runs, k);
      if e.runId in runs[..k] {
        assert F[|F| - 1] == e;
        forall i | 0 <= i < |front|
          ensures front[i].runId in runs[..k] <==> front[i].runId in runs
        {
          if front[i].runId in runs {
            OfMembers(front, runs, front[i]);
            var j :| 0 <= j < |Of(front, runs)| && Of(front, runs)[j] == front[i];
            assert F[j] == front[i];
          }
        }
        OfSame(front, runs[..k], runs);
      }
    }
  }

  /** Once an event of an earlier run is last, a later run has recorded nothing. */
  lemma LaterRunIsSilent(front: seq<EventRecord>, e: EventRecord, runs: seq<string>, k: nat)
    requires k < |runs| && NoDuplicates(runs) && e.runId in runs[..k]
    requires RunsInOrder(Of(front + [e], runs), runs)
    ensures Of(front, [runs[k]]) == []
  {
    OfAppend(front, e, runs);
    var F := Of(front + [e], runs);
    assert F == Of(front, runs) + [e] && F[|F| - 1] == e;
    forall i | 0 <= i < |front|
      ensures front[i].runId != runs[k]
    {
      if front[i].runId in runs {
        OfMembers(front, runs, front[i]);
        var j :| 0 <= j < |Of(front, runs)| && Of(front, runs)[j] == front[i];
        assert F[j] == front[i];
        assert F[j].runId in runs[..k];
      }
    }
    OfSame(front, [runs[k]], []);
    OfNothing(front);
  }

  lemma {:induction false} LaterRunFollows(log: seq<EventRecord>, runs: seq<string>, k: nat)
    requires k < |runs| && NoDuplicates(runs) && RunsInOrder(Of(log, runs), runs)
    ensures Of(log, runs[..k + 1]) == Of(log, runs[..k]) + Of(log, [runs[k]])
    decreases |log|
  {
    if log == [] {
    } else {
      var front, e := log[..|log| - 1], log[|log| - 1];
      assert log == front + [e];
      OfPrefix(log, |log| - 1, runs);
      LaterRunFollows(front, runs, k);
      assert e.runId in runs[..k + 1] <==> e.runId in runs[..k] || e.runId == runs[k] by {
        assert runs[..k + 1] == runs[..k] + [runs[k]];
      }
      assert runs[k] !in runs[..k];
      if e.runId in runs[..k] {
        LaterRunIsSilent(front, e, runs, k);
      }
      JoinLast(Of(front, runs[..k]), Of(front, [runs[k]]), e);
    }
  }

  lemma JoinLast(a: seq<EventRecord>, b: seq<EventRecord>, e: EventRecord)
    ensures (a + b) + [e] == a + (b + [e])
    ensures b == [] ==> (a + b) + [e] == (a + [e]) + b
    ensures (a + b) + [] == (a + []) + (b + [])
  {
  }

  lemma {:induction false} SelectIsAbove(log: seq<EventRecord>, run: string, after: nat)
    ensures Select(log, run, after + 1) == Above(Of(log, [run]), after)
    decreases |log|
  {
    if log == [] {
    } else {
      var front, e := log[..|log| - 1], log[|log| - 1];
      SelectIsAbove(front, run, after);
      if e.runId == run {
        assert (Of(front, [run]) + [e])[..|Of(front, [run])|] == Of(front, [run]);
      } else {
        assert Of(front, [run]) + [] == Of(front, [run]);
      }
    }
  }

  function Suffix(events: seq<EventRecord>, n: nat): seq<EventRecord> {
    if n >= |events| then [] else events[n..]
  }

  lemma {:induction false} AboveNumbered(events: seq<EventRecord>, base: nat, after: nat)
    requires NumberedFrom(events, base)
    ensures Above(events, after) == if after <= base then events else Suffix(events, after - base)
    decreases |events|
  {
    if events == [] {
    } else {
      var front, last := events[..|events| - 1], events[|events| - 1];
      AboveNumbered(front, base, after);
      SplitLast(events);
      assert last.sequence == base + |events|;
      if base < after < base + |events| {
        assert Suffix(events, after - base) == Suffix(front, after - base) + [last];
      }
    }
  }

  /** What `SessionInv` says of the stored events alone. */
  ghost predicate WellRecorded(log: seq<EventRecord>, runs: seq<string>) {
    && NoDuplicates(runs)
    && NumberedFrom(Of(log, runs), 0)
    && RunsInOrder(Of(log, runs), runs)
    && |Of(log, runs)| <= I64_MAX
  }

  lemma {:induction false} GatheredRuns(log: seq<EventRecord>, runs: seq<string>, k: nat, after: nat)
    requires WellRecorded(log, runs) && k <= |runs|
    ensures GatherRuns(log, runs[..k], after) == Suffix(Of(log, runs[..k]), after)
    decreases k
  {
    if k == 0 {
      OfNothing(log);
      assert runs[..0] == [];
    } else {
      var earlier, run := runs[..k - 1], runs[k - 1];
      assert runs[..k][..k - 1] == earlier && runs[..k][k - 1] == run;
      GatheredRuns(log, runs, k - 1, after);
      LaterRunFollows(log, runs, k - 1);
      EarlierRunsComeFirst(log, runs, k);
      var G, H := Of(log, earlier), Of(log, [run]);
      NumberedTail(Of(log, runs), G, H);
      SelectIsAbove(log, run, after);
      SuffixOfTwo(G, H, after);
      SortedStays(Above(H, after), if after <= |G| then |G| else after);
    }
  }

  lemma NumberedTail(F: seq<EventRecord>, G: seq<EventRecord>, H: seq<EventRecord>)
    requires NumberedFrom(F, 0) && G + H <= F
    ensures NumberedFrom(H, |G|)
    ensures |G| + |H| <= |F|
  {
    forall i | 0 <= i < |H|
      ensures H[i].sequence == |G| + i + 1
    {
      assert H[i] == (G + H)[|G| + i] == F[|G| + i];
    }
  }

  lemma SuffixOfTwo(G: seq<EventRecord>, H: seq<EventRecord>, after: nat)
    requires NumberedFrom(H, |G|)
    ensures Suffix(G + H, after) == Suffix(G, after) + Above(H, after)
    ensures NumberedFrom(Above(H, after), if after <= |G| then |G| else after)
  {
    AboveNumbered(H, |G|, after);
    CutOfTwo(G, H, after);
    if after > |G| {
      SuffixNumbered(H, |G|, after - |G|);
      assert [] + Above(H, after) == Above(H, after);
    }
  }

  lemma SuffixNumbered(H: seq<EventRecord>, base: nat, n: nat)
    requires NumberedFrom(H, base)
    ensures NumberedFrom(Suffix(H, n), base + n)
  {
  }

  lemma CutOfTwo(G: seq<EventRecord>, H: seq<EventRecord>, after: nat)
    ensures Suffix(G + H, after) == if after <= |G| then Suffix(G, after) + H else Suffix(H, after - |G|)
  {
    var whole := G + H;
    if after < |G| {
      assert whole[after..] == G[after..] + H;
    } else if after < |whole| {
      assert whole[after..] == H[after - |G|..];
    }
  }

  lemma {:induction false} OfNothing(log: seq<EventRecord>)
    ensures Of(log, []) == []
    decreases |log|
  {
    if log == [] {
    } else {
      OfNothing(log[..|log| - 1]);
    }
  }

  /** Replaying an initial part of a session's runs returns exactly their
      events above the cursor, in order: gathering run by run and sorting
      neither loses nor repeats nor reorders any. */
  lemma ReplayIsSuffix(log: seq<EventRecord>, runs: seq<string>, k: nat, after: nat)
    requires WellRecorded(log, runs) && k <= |runs|
    ensures SessionEventsAfter(log, runs[..k], after) == Suffix(Of(log, runs[..k]), after)
    ensures Of(log, runs[..k]) <= Of(log, runs)
  {
    GatheredRuns(log, runs, k, after);
    EarlierRunsComeFirst(log, runs, k);
    SortedStays(Suffix(Of(log, runs[..k]), after), after);
  }

  // ----- The next number -----

  ghost predicate IsHighest(log: seq<EventRecord>, runs: seq<string>, highest: Option<nat>) {
    match highest
    case None => forall e :: e in log ==> e.runId !in runs
    case Some(h) =>
      && (exists e :: e in log && e.runId in runs && e.sequence == h)
      && (forall e :: e in log && e.runId in runs ==> e.sequence <= h)
  }

  lemma {:induction false} LastSequenceIsHighest(log: seq<EventRecord>, run: string)
    ensures IsHighest(log, [run], LastSequence(log, run))
    decreases |log|
  {
    if log == [] {
    } else {
      var front, last := log[..|log| - 1], log[|log| - 1];
      LastSequenceIsHighest(front, run);
      assert forall e :: e in log <==> e in front || e == last;
    }
  }

  lemma {:induction false} HighestIsHighest(log: seq<EventRecord>, runs: seq<string>)
    ensures IsHighest(log, runs, HighestSequence(log, runs))
    decreases |runs|
  {
    if runs == [] {
    } else {
      var front, last := runs[..|runs| - 1], runs[|runs| - 1];
      HighestIsHighest(log, front);
      LastSequenceIsHighest(log, last);
      assert forall r :: r in runs <==> r in front || r == last;
      assert forall r :: r in [last] <==> r == last;
    }
  }

  /** The number read for a session's next run is one past all its events. */
  lemma NextNumberContinues(log: seq<EventRecord>, runs: seq<string>)
    requires NumberedFrom(Of(log, runs), 0)
    ensures NextSessionSequence(log, runs) == |Of(log, runs)| + 1
  {
    HighestIsHighest(log, runs);
    var F := Of(log, runs);
    if F == [] {
      forall e | e in log
        ensures e.runId !in runs
      {
        OfMembers(log, runs, e);
      }
    } else {
      var last := F[|F| - 1];
      OfMembers(log, runs, last);
      var highest := HighestSequence(log, runs);
      var e :| e in log && e.runId in runs && e.sequence == highest.value;
      OfMembers(log, runs, e);
      var i :| 0 <= i < |F| && F[i] == e;
    }
  }
}
