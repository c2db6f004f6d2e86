/** Requests of several sessions side by side on one folder. A request compares,
    changes the folder and is noted in three steps with no lock across them, so
    a change can meet something else than was compared, and notes can come in
    another order than changes (crates/app-server/src/api.rs,
    crates/tools/src/workspace_files.rs). */
module SharedFolder {
  import opened Common
  import opened AppJournals
  import opened PageSessions

  /** What one request did to the folder, or what came of a command; and whether
      its path then still held what it had compared. */
  datatype SwapRecord = SwapRecord(token: string, effect: Effect, found: bool)

  /** A request that has compared and not yet gone on. */
  datatype Call = Call(token: string, prepared: Prepared)

  /** `swaps` lists what was done, in the order it was done; a journal lists the
      numbers of the swaps noted in it, in the order they were noted. */
  datatype System = System(disk: Disk, under: map<nat, Call>, swaps: seq<SwapRecord>, waiting: set<nat>,
                           journals: map<string, seq<nat>>)

  datatype Step =
    | Compare(call: nat, token: string, request: Request)
    | Swap(call: nat)
    | NoteSwap(swap: nat)

  function JournalOf(s: System, token: string): seq<nat> {
    if token in s.journals then s.journals[token] else []
  }

  predicate Enabled(s: System, step: Step) {
    match step
    case Compare(call, _, _) => call !in s.under
    case Swap(call) => call in s.under
    case NoteSwap(n) => n in s.waiting && n < |s.swaps|
  }

  /** The path a request is about still holds what it compared. */
  predicate StillHeld(files: Files, prepared: Prepared, sha: Sha) {
    !prepared.ToReport? ==> HashOf(files, prepared.path, sha) == prepared.preimage
  }

  function Next(s: System, step: Step, sha: Sha): System
    requires Enabled(s, step)
  {
    match step
    case Compare(call, token, request) =>
      (match PrepareOf(s.disk.files, request, sha)
       case None => s
       case Some(prepared) => s.(under := s.under[call := Call(token, prepared)]))
    case Swap(call) => AfterSwap(s, call, sha)
    case NoteSwap(n) =>
      var token := s.swaps[n].token;
      s.(waiting := s.waiting - {n}, journals := s.journals[token := JournalOf(s, token) + [n]])
  }

  function AfterSwap(s: System, call: nat, sha: Sha): System
    requires call in s.under
  {
    var Call(token, prepared) := s.under[call];
    var done := CommitOf(s.disk, prepared, sha);
    if done.effect.None? then s.(disk := done.disk, under := s.under - {call})
    else System(done.disk, s.under - {call},
                s.swaps + [SwapRecord(token, done.effect.value, StillHeld(s.disk.files, prepared, sha))],
                s.waiting + {|s.swaps|}, s.journals)
  }

  predicate Leads(s: System, step: Step, s': System, sha: Sha) {
    Enabled(s, step) && s' == Next(s, step, sha)
  }

  ghost predicate Run(base: Disk, states: seq<System>, steps: seq<Step>, sha: Sha) {
    && |states| == |steps| + 1
    && states[0] == System(base, map[], [], {}, map[])
    && forall i :: 0 <= i < |steps| ==> Leads(states[i], steps[i], states[i + 1], sha)
  }

  // ----- Lists of swaps -----

  predicate Within(numbers: seq<nat>, n: nat) {
    forall i :: 0 <= i < |numbers| ==> numbers[i] < n
  }

  function EffectsAt(swaps: seq<SwapRecord>, numbers: seq<nat>): seq<Effect>
    requires Within(numbers, |swaps|)
  {
    seq(|numbers|, i requires 0 <= i < |numbers| => swaps[numbers[i]].effect)
  }

  function AllEffects(s: System): seq<Effect> {
    EffectsAt(s.swaps, UpTo(|s.swaps|))
  }

  function UpTo(n: nat): (numbers: seq<nat>)
    ensures Within(numbers, n)
  {
    seq(n, i => i)
  }

  // ----- One path -----

  /** The swaps among `numbers` that touch a path. */
  function On(swaps: seq<SwapRecord>, numbers: seq<nat>, path: string): (on: seq<nat>)
    requires Within(numbers, |swaps|)
    ensures Within(on, |swaps|)
    ensures forall i :: 0 <= i < |on| ==> Touches(swaps[on[i]].effect, path)
  {
    if numbers == [] then []
    else
      var last := numbers[|numbers| - 1];
      On(swaps, numbers[..|numbers| - 1], path) + if Touches(swaps[last].effect, path) then [last] else []
  }

  function SwapsOn(s: System, path: string): seq<nat> {
    On(s.swaps, UpTo(|s.swaps|), path)
  }

  function NotesOn(s: System, token: string, path: string): seq<nat>
    requires Within(JournalOf(s, token), |s.swaps|)
  {
    On(s.swaps, JournalOf(s, token), path)
  }

  predicate AllTouch(swaps: seq<SwapRecord>, numbers: seq<nat>, path: string) {
    Within(numbers, |swaps|) && forall i :: 0 <= i < |numbers| ==> Touches(swaps[numbers[i]].effect, path)
  }

  /** What a path holds after these swaps on it. */
  function EndOf(start: string, swaps: seq<SwapRecord>, numbers: seq<nat>, path: string): string
    requires AllTouch(swaps, numbers, path)
  {
    if numbers == [] then start else PostimageOf(swaps[numbers[|numbers| - 1]].effect)
  }

  /** Each of these swaps on a path names what the ones before it left there. */
  predicate Chain(start: string, swaps: seq<SwapRecord>, numbers: seq<nat>, path: string)
    requires AllTouch(swaps, numbers, path)
    decreases |numbers|
  {
    if numbers == [] then true
    else
      var front, last := numbers[..|numbers| - 1], numbers[|numbers| - 1];
      Chain(start, swaps, front, path) && swaps[last].effect.preimage == EndOf(start, swaps, front, path)
  }

  /** On one path, each effect names what the ones before it left there. */
  ghost predicate ConsistentOn(before: Hashes, effects: seq<Effect>, path: string) {
    forall i :: 0 <= i < |effects| && Touches(effects[i], path) ==>
      effects[i].preimage == HashAt(DoneAll(before, effects[..i]), path)
  }

  lemma ConsistentOnGrows(before: Hashes, effects: seq<Effect>, next: Effect, path: string)
    ensures ConsistentOn(before, effects + [next], path) <==>
            ConsistentOn(before, effects, path) &&
            (Touches(next, path) ==> next.preimage == HashAt(DoneAll(before, effects), path))
  {
    var all := effects + [next];
    assert all[..|effects|] == effects && all[|effects|] == next;
    assert forall i :: 0 <= i < |effects| ==> all[i] == effects[i] && all[..i] == effects[..i];
  }

  lemma DoneAllGrows(before: Hashes, effects: seq<Effect>, next: Effect)
    ensures DoneAll(before, effects + [next]) == Done(DoneAll(before, effects), next)
  {
    assert (effects + [next])[..|effects|] == effects;
  }

  /** A list of swaps tells of a path what the swaps on it tell. */
  ghost predicate ToldBy(before: Hashes, effects: seq<Effect>, swaps: seq<SwapRecord>, on: seq<nat>, path: string)
    requires AllTouch(swaps, on, path)
  {
    && HashAt(DoneAll(before, effects), path) == EndOf(HashAt(before, path), swaps, on, path)
    && (ConsistentOn(before, effects, path) <==> Chain(HashAt(before, path), swaps, on, path))
  }

  lemma TouchIsTold(before: Hashes, effects: seq<Effect>, swaps: seq<SwapRecord>, on: seq<nat>, last: nat, path: string)
    requires AllTouch(swaps, on, path) && last < |swaps| && Touches(swaps[last].effect, path)
    requires ToldBy(before, effects, swaps, on, path)
    ensures AllTouch(swaps, on + [last], path)
    ensures ToldBy(before, effects + [swaps[last].effect], swaps, on + [last], path)
  {
    DoneAllGrows(before, effects, swaps[last].effect);
    ConsistentOnGrows(before, effects, swaps[last].effect, path);
    ChainGrows(HashAt(before, path), swaps, on, last, path);
  }

  lemma ChainGrows(start: string, swaps: seq<SwapRecord>, on: seq<nat>, last: nat, path: string)
    requires AllTouch(swaps, on, path) && last < |swaps| && Touches(swaps[last].effect, path)
    ensures AllTouch(swaps, on + [last], path)
    ensures EndOf(start, swaps, on + [last], path) == PostimageOf(swaps[last].effect)
    ensures Chain(start, swaps, on + [last], path) <==>
            Chain(start, swaps, on, path) && swaps[last].effect.preimage == EndOf(start, swaps, on, path)
  {
    assert (on + [last])[..|on|] == on;
  }

  lemma OtherIsTold(before: Hashes, effects: seq<Effect>, swaps: seq<SwapRecord>, on: seq<nat>, next: Effect, path: string)
    requires AllTouch(swaps, on, path) && !Touches(next, path)
    requires ToldBy(before, effects, swaps, on, path)
    ensures ToldBy(before, effects + [next], swaps, on, path)
  {
    DoneAllGrows(before, effects, next);
    ConsistentOnGrows(before, effects, next, path);
  }

  lemma {:induction false} PathHistory(before: Hashes, swaps: seq<SwapRecord>, numbers: seq<nat>, path: string)
    requires Within(numbers, |swaps|)
    ensures ToldBy(before, EffectsAt(swaps, numbers), swaps, On(swaps, numbers, path), path)
    decreases |numbers|
  {
    if numbers == [] {
    } else {
      var front, last := numbers[..|numbers| - 1], numbers[|numbers| - 1];
      PathHistory(before, swaps, front, path);
      var effects, on := EffectsAt(swaps, front), On(swaps, front, path);
      assert EffectsAt(swaps, numbers) == effects + [swaps[last].effect];
      if Touches(swaps[last].effect, path) {
        TouchIsTold(before, effects, swaps, on, last, path);
      } else {
        OtherIsTold(before, effects, swaps, on, swaps[last].effect, path);
        assert on + [] == on;
      }
    }
  }

  lemma {:induction false} OnKeeps(swaps: seq<SwapRecord>, numbers: seq<nat>, path: string)
    requires Within(numbers, |swaps|)
    ensures forall n :: n in On(swaps, numbers, path) <==> n in numbers && Touches(swaps[n].effect, path)
    ensures NoDuplicates(numbers) ==> NoDuplicates(On(swaps, numbers, path))
    decreases |numbers|
  {
    if numbers == [] {
    } else {
      var front, last := numbers[..|numbers| - 1], numbers[|numbers| - 1];
      OnKeeps(swaps, front, path);
      SplitLast(numbers);
      assert NoDuplicates(numbers) ==> NoDuplicates(front) && last !in front;
    }
  }

  lemma {:induction false} OnSurvives(swaps: seq<SwapRecord>, next: SwapRecord, numbers: seq<nat>, path: string)
    requires Within(numbers, |swaps|)
    ensures On(swaps + [next], numbers, path) == On(swaps, numbers, path)
    decreases |numbers|
  {
    if numbers == [] {
    } else {
      OnSurvives(swaps, next, numbers[..|numbers| - 1], path);
    }
  }

  lemma OnAppend(swaps: seq<SwapRecord>, numbers: seq<nat>, n: nat, path: string)
    requires Within(numbers, |swaps|) && n < |swaps|
    ensures On(swaps, numbers + [n], path) == On(swaps, numbers, path) + if Touches(swaps[n].effect, path) then [n] else []
  {
    assert (numbers + [n])[..|numbers|] == numbers;
  }

  lemma SwapsOnGrows(s: System, s': System, next: SwapRecord, path: string)
    requires s'.swaps == s.swaps + [next]
    ensures SwapsOn(s', path) == SwapsOn(s, path) + if Touches(next.effect, path) then [|s.swaps|] else []
  {
    var n := |s.swaps|;
    assert UpTo(n + 1) == UpTo(n) + [n];
    OnAppend(s'.swaps, UpTo(n), n, path);
    OnSurvives(s.swaps, next, UpTo(n), path);
  }

  // ----- What every reachable state satisfies -----

  /** The folder is what the swaps, one after another, made of it. */
  ghost predicate Made(base: Disk, s: System, sha: Sha) {
    DoneAll(HashesOf(base.files, sha), AllEffects(s)) == HashesOf(s.disk.files, sha)
  }

  /** Every swap on a path found what its request had compared. */
  ghost predicate AllFound(s: System, path: string) {
    forall n: nat :: n < |s.swaps| && Touches(s.swaps[n].effect, path) ==> s.swaps[n].found
  }

  /** The swaps on a path name what each replaced exactly when each found what
      its request had compared. */
  ghost predicate FoundTells(base: Disk, s: System, sha: Sha) {
    forall path :: ConsistentOn(HashesOf(base.files, sha), AllEffects(s), path) <==> AllFound(s, path)
  }

  /** The path held `hash` before the swap numbered `n`. */
  predicate HeldBefore(start: string, s: System, n: nat, path: string, hash: string) {
    hash == start || exists j: nat :: j < n && LeavesBehind(s, j, path, hash)
  }

  predicate LeavesBehind(s: System, j: nat, path: string, hash: string) {
    j < |s.swaps| && Touches(s.swaps[j].effect, path) && PostimageOf(s.swaps[j].effect) == hash
  }

  /** What was compared, the path did hold at some time before. */
  ghost predicate ComparedWasHeld(base: Disk, s: System, sha: Sha) {
    && (forall call, path :: UnderOn(s, call, path) ==>
          HeldBefore(HashAt(HashesOf(base.files, sha), path), s, |s.swaps|, path, s.under[call].prepared.preimage))
    && (forall n: nat, path :: n < |s.swaps| && Touches(s.swaps[n].effect, path) ==>
          HeldBefore(HashAt(HashesOf(base.files, sha), path), s, n, path, s.swaps[n].effect.preimage))
  }

  /** A request on the path has compared and not yet gone on. */
  predicate UnderOn(s: System, call: nat, path: string) {
    call in s.under && TouchedBy(s.under[call].prepared, path)
  }

  /** A journal notes swaps of its own session, each once, none of them waiting. */
  ghost predicate Owns(s: System, token: string) {
    var numbers := JournalOf(s, token);
    && Within(numbers, |s.swaps|) && NoDuplicates(numbers)
    && forall i :: 0 <= i < |numbers| ==> s.swaps[numbers[i]].token == token && numbers[i] !in s.waiting
  }

  ghost predicate AllNotedOrWaiting(s: System) {
    forall n: nat :: n < |s.swaps| ==> n in s.waiting || n in JournalOf(s, s.swaps[n].token)
  }

  ghost predicate Accounted(s: System) {
    (forall n :: n in s.waiting ==> n < |s.swaps|) && (forall token :: Owns(s, token)) && AllNotedOrWaiting(s)
  }

  ghost predicate Sound(base: Disk, s: System, sha: Sha) {
    Made(base, s, sha) && FoundTells(base, s, sha) && ComparedWasHeld(base, s, sha) && Accounted(s)
  }

  lemma EffectsGrow(s: System, s': System, next: SwapRecord)
    requires s'.swaps == s.swaps + [next]
    ensures AllEffects(s') == AllEffects(s) + [next.effect]
  {
  }

  /** A swap with an effect adds it to what was done, and nothing else does. */
  lemma SwapAdds(s: System, call: nat, sha: Sha)
    requires call in s.under && CommitOf(s.disk, s.under[call].prepared, sha).effect.Some?
    ensures var s', effect := AfterSwap(s, call, sha), CommitOf(s.disk, s.under[call].prepared, sha).effect.value;
            && s'.swaps == s.swaps + [SwapRecord(s.under[call].token, effect, StillHeld(s.disk.files, s.under[call].prepared, sha))]
            && AllEffects(s') == AllEffects(s) + [effect]
  {
    var s' := AfterSwap(s, call, sha);
    EffectsGrow(s, s', s'.swaps[|s.swaps|]);
  }

  lemma SwapKeepsMade(base: Disk, s: System, call: nat, sha: Sha)
    requires call in s.under && Made(base, s, sha) && NeverNull(sha)
    ensures Made(base, AfterSwap(s, call, sha), sha)
  {
    var done := CommitOf(s.disk, s.under[call].prepared, sha);
    CommitShowsInHashes(s.disk, s.under[call].prepared, sha);
    if done.effect.Some? {
      SwapAdds(s, call, sha);
      DoneAllGrows(HashesOf(base.files, sha), AllEffects(s), done.effect.value);
    }
  }

  lemma SwapKeepsFoundTells(base: Disk, s: System, call: nat, sha: Sha)
    requires call in s.under && Made(base, s, sha) && FoundTells(base, s, sha) && NeverNull(sha)
    ensures FoundTells(base, AfterSwap(s, call, sha), sha)
  {
    var done, s' := CommitOf(s.disk, s.under[call].prepared, sha), AfterSwap(s, call, sha);
    CommitShowsInHashes(s.disk, s.under[call].prepared, sha);
    if done.effect.Some? {
      SwapAdds(s, call, sha);
      forall path
        ensures ConsistentOn(HashesOf(base.files, sha), AllEffects(s'), path) <==> AllFound(s', path)
      {
        ConsistentOnGrows(HashesOf(base.files, sha), AllEffects(s), done.effect.value, path);
        FoundGrows(s, s', s'.swaps[|s.swaps|], path);
        assert HashAt(HashesOf(s.disk.files, sha), path) == HashOf(s.disk.files, path, sha);
      }
    }
  }

  lemma FoundGrows(s: System, s': System, next: SwapRecord, path: string)
    requires s'.swaps == s.swaps + [next]
    ensures AllFound(s', path) <==> AllFound(s, path) && (Touches(next.effect, path) ==> next.found)
  {
    assert s'.swaps[|s.swaps|] == next;
    assert forall n: nat :: n < |s.swaps| ==> s'.swaps[n] == s.swaps[n];
  }

  /** What a path holds now is what it held first or what some swap left there. */
  lemma HeldNow(base: Disk, s: System, path: string, sha: Sha)
    requires Made(base, s, sha)
    ensures HeldBefore(HashAt(HashesOf(base.files, sha), path), s, |s.swaps|, path, HashOf(s.disk.files, path, sha))
  {
    PathHistory(HashesOf(base.files, sha), s.swaps, UpTo(|s.swaps|), path);
    assert HashAt(HashesOf(s.disk.files, sha), path) == HashOf(s.disk.files, path, sha);
    var on := SwapsOn(s, path);
    if on != [] {
      assert LeavesBehind(s, on[|on| - 1], path, HashOf(s.disk.files, path, sha));
    }
  }

  lemma CompareKeepsHeld(base: Disk, s: System, step: Step, sha: Sha)
    requires step.Compare? && Enabled(s, step) && Made(base, s, sha) && ComparedWasHeld(base, s, sha)
    ensures ComparedWasHeld(base, Next(s, step, sha), sha)
  {
    var s' := Next(s, step, sha);
    forall call, path | UnderOn(s', call, path)
      ensures HeldBefore(HashAt(HashesOf(base.files, sha), path), s', |s'.swaps|, path, s'.under[call].prepared.preimage)
    {
      if call == step.call {
        HeldNow(base, s, path, sha);
        SameSwapsSameHeld(HashAt(HashesOf(base.files, sha), path), s, s', |s.swaps|, path, HashOf(s.disk.files, path, sha));
      } else {
        assert UnderOn(s, call, path);
        SameSwapsSameHeld(HashAt(HashesOf(base.files, sha), path), s, s', |s.swaps|, path, s.under[call].prepared.preimage);
      }
    }
    forall n: nat, path | n < |s'.swaps| && Touches(s'.swaps[n].effect, path)
      ensures HeldBefore(HashAt(HashesOf(base.files, sha), path), s', n, path, s'.swaps[n].effect.preimage)
    {
      SameSwapsSameHeld(HashAt(HashesOf(base.files, sha), path), s, s', n, path, s.swaps[n].effect.preimage);
    }
  }

  /** More swaps take nothing from what a path has held. */
  lemma SameSwapsSameHeld(start: string, s: System, s': System, n: nat, path: string, hash: string)
    requires s.swaps <= s'.swaps && HeldBefore(start, s, n, path, hash)
    ensures forall m: nat :: n <= m ==> HeldBefore(start, s', m, path, hash)
  {
    if hash != start {
      var j: nat :| j < n && LeavesBehind(s, j, path, hash);
      assert LeavesBehind(s', j, path, hash);
    }
  }

  lemma SwapKeepsHeld(base: Disk, s: System, call: nat, sha: Sha)
    requires call in s.under && ComparedWasHeld(base, s, sha) && NeverNull(sha)
    ensures ComparedWasHeld(base, AfterSwap(s, call, sha), sha)
  {
    var s' := AfterSwap(s, call, sha);
    CommitShowsInHashes(s.disk, s.under[call].prepared, sha);
    forall other, path | UnderOn(s', other, path)
      ensures HeldBefore(HashAt(HashesOf(base.files, sha), path), s', |s'.swaps|, path, s'.under[other].prepared.preimage)
    {
      assert UnderOn(s, other, path);
      SameSwapsSameHeld(HashAt(HashesOf(base.files, sha), path), s, s', |s.swaps|, path, s.under[other].prepared.preimage);
    }
    forall n: nat, path | n < |s'.swaps| && Touches(s'.swaps[n].effect, path)
      ensures HeldBefore(HashAt(HashesOf(base.files, sha), path), s', n, path, s'.swaps[n].effect.preimage)
    {
      if n == |s.swaps| {
        assert UnderOn(s, call, path);
        SameSwapsSameHeld(HashAt(HashesOf(base.files, sha), path), s, s', n, path, s.under[call].prepared.preimage);
      } else {
        assert s'.swaps[n] == s.swaps[n];
        SameSwapsSameHeld(HashAt(HashesOf(base.files, sha), path), s, s', n, path, s.swaps[n].effect.preimage);
      }
    }
  }

  lemma SwapKeepsJournals(s: System, call: nat, sha: Sha)
    requires call in s.under && Accounted(s)
    ensures Accounted(AfterSwap(s, call, sha))
  {
    var s' := AfterSwap(s, call, sha);
    forall t
      ensures Owns(s', t)
    {
      assert Owns(s, t) && JournalOf(s', t) == JournalOf(s, t);
    }
  }

  lemma NoteKeepsJournals(s: System, n: nat, sha: Sha)
    requires Enabled(s, NoteSwap(n)) && Accounted(s)
    ensures Accounted(Next(s, NoteSwap(n), sha))
  {
    var s' := Next(s, NoteSwap(n), sha);
    var token := s.swaps[n].token;
    assert Owns(s, token);
    assert JournalOf(s', token) == JournalOf(s, token) + [n];
    forall t
      ensures Owns(s', t)
    {
      assert Owns(s, t);
    }
    forall m: nat | m < |s'.swaps|
      ensures m in s'.waiting || m in JournalOf(s', s'.swaps[m].token)
    {
      assert JournalOf(s', token)[|JournalOf(s, token)|] == n;
      if m in JournalOf(s, s.swaps[m].token) {
        var i :| 0 <= i < |JournalOf(s, s.swaps[m].token)| && JournalOf(s, s.swaps[m].token)[i] == m;
        assert JournalOf(s', s.swaps[m].token)[i] == m;
      }
    }
  }

  lemma NoteKeepsHeld(base: Disk, s: System, n: nat, sha: Sha)
    requires Enabled(s, NoteSwap(n)) && ComparedWasHeld(base, s, sha)
    ensures ComparedWasHeld(base, Next(s, NoteSwap(n), sha), sha)
  {
    var s' := Next(s, NoteSwap(n), sha);
    forall call, path | UnderOn(s', call, path)
      ensures HeldBefore(HashAt(HashesOf(base.files, sha), path), s', |s'.swaps|, path, s'.under[call].prepared.preimage)
    {
      assert UnderOn(s, call, path);
      SameSwapsSameHeld(HashAt(HashesOf(base.files, sha), path), s, s', |s.swaps|, path, s.under[call].prepared.preimage);
    }
    forall m: nat, path | m < |s'.swaps| && Touches(s'.swaps[m].effect, path)
      ensures HeldBefore(HashAt(HashesOf(base.files, sha), path), s', m, path, s'.swaps[m].effect.preimage)
    {
      SameSwapsSameHeld(HashAt(HashesOf(base.files, sha), path), s, s', m, path, s.swaps[m].effect.preimage);
    }
  }

  /** Only a swap changes the folder or what was done to it. */
  lemma OtherStepsKeepSwaps(base: Disk, s: System, step: Step, sha: Sha)
    requires Enabled(s, step) && !step.Swap?
    ensures Next(s, step, sha).disk == s.disk && Next(s, step, sha).swaps == s.swaps
    ensures Made(base, s, sha) ==> Made(base, Next(s, step, sha), sha)
    ensures FoundTells(base, s, sha) ==> FoundTells(base, Next(s, step, sha), sha)
  {
    var s' := Next(s, step, sha);
    assert AllEffects(s') == AllEffects(s);
    assert forall path :: AllFound(s', path) <==> AllFound(s, path);
  }

  lemma CompareKeepsJournals(s: System, step: Step, sha: Sha)
    requires step.Compare? && Enabled(s, step) && Accounted(s)
    ensures Accounted(Next(s, step, sha))
  {
    var s' := Next(s, step, sha);
    forall t
      ensures Owns(s', t)
    {
      assert Owns(s, t) && JournalOf(s', t) == JournalOf(s, t);
    }
  }

  lemma StepKeepsSound(base: Disk, s: System, step: Step, sha: Sha)
    requires Sound(base, s, sha) && Enabled(s, step) && NeverNull(sha)
    ensures Sound(base, Next(s, step, sha), sha)
  {
    match step {
      case Compare(_, _, _) =>
        OtherStepsKeepSwaps(base, s, step, sha);
        CompareKeepsHeld(base, s, step, sha);
        CompareKeepsJournals(s, step, sha);
      case Swap(call) =>
        SwapKeepsMade(base, s, call, sha);
        SwapKeepsFoundTells(base, s, call, sha);
        SwapKeepsHeld(base, s, call, sha);
        SwapKeepsJournals(s, call, sha);
      case NoteSwap(n) =>
        OtherStepsKeepSwaps(base, s, step, sha);
        NoteKeepsHeld(base, s, n, sha);
        NoteKeepsJournals(s, n, sha);
    }
  }

  lemma {:induction false} EveryStateIsSound(base: Disk, states: seq<System>, steps: seq<Step>, i: nat, sha: Sha)
    requires Run(base, states, steps, sha) && i < |states| && NeverNull(sha)
    ensures Sound(base, states[i], sha)
    decreases i
  {
    if i == 0 {
    } else {
      EveryStateIsSound(base, states, steps, i - 1, sha);
      assert Leads(states[i - 1], steps[i - 1], states[i], sha);
      StepKeepsSound(base, states[i - 1], steps[i - 1], sha);
    }
  }

  // ----- When a journal accounts for a path -----

  /** A journal accounts for what a path of the folder holds. */
  ghost predicate AccountsFor(base: Disk, s: System, token: string, path: string, sha: Sha)
    requires Within(JournalOf(s, token), |s.swaps|)
  {
    var effects := EffectsAt(s.swaps, JournalOf(s, token));
    && ConsistentOn(HashesOf(base.files, sha), effects, path)
    && HashAt(DoneAll(HashesOf(base.files, sha), effects), path) == HashAt(HashesOf(s.disk.files, sha), path)
  }

  /** No swap brings a path back to what it held before. */
  ghost predicate NeverReturns(base: Disk, s: System, path: string, sha: Sha) {
    Fresh(HashAt(HashesOf(base.files, sha), path), s.swaps, SwapsOn(s, path), path)
  }

  predicate Fresh(start: string, swaps: seq<SwapRecord>, numbers: seq<nat>, path: string)
    requires AllTouch(swaps, numbers, path)
  {
    && (forall i :: 0 <= i < |numbers| ==> PostimageOf(swaps[numbers[i]].effect) != start)
    && (forall i, j :: 0 <= i < j < |numbers| ==>
          PostimageOf(swaps[numbers[i]].effect) != PostimageOf(swaps[numbers[j]].effect))
  }

  /** Of two chains over the same fresh swaps, one of which holds the other,
      that end alike, neither leaves anything out or changes the order. */
  lemma {:induction false} ChainsAgree(start: string, swaps: seq<SwapRecord>, all: seq<nat>, part: seq<nat>, path: string)
    requires AllTouch(swaps, all, path) && AllTouch(swaps, part, path) && NoDuplicates(part)
    requires Chain(start, swaps, all, path) && Fresh(start, swaps, all, path)
    requires forall n :: n in part ==> n in all
    requires Chain(start, swaps, part, path) && EndOf(start, swaps, part, path) == EndOf(start, swaps, all, path)
    ensures part == all
    decreases |all|
  {
    assert part != [] ==> part[0] in part;
    if all != [] && part != [] {
      var m, k := |all| - 1, |part| - 1;
      SameLast(start, swaps, all, part, path);
      forall n | n in part[..k]
        ensures n in all[..m]
      {
        assert n in part && n != all[m];
      }
      ChainsAgree(start, swaps, all[..m], part[..k], path);
      SplitLast(all);
      SplitLast(part);
    }
  }

  lemma SameLast(start: string, swaps: seq<SwapRecord>, all: seq<nat>, part: seq<nat>, path: string)
    requires AllTouch(swaps, all, path) && AllTouch(swaps, part, path) && Fresh(start, swaps, all, path)
    requires all != [] && part != [] && part[|part| - 1] in all
    requires EndOf(start, swaps, part, path) == EndOf(start, swaps, all, path)
    ensures part[|part| - 1] == all[|all| - 1]
  {
    var j :| 0 <= j < |all| && all[j] == part[|part| - 1];
  }

  /** No other session swaps the path. */
  ghost predicate OnlyBy(s: System, token: string, path: string) {
    forall n: nat :: n < |s.swaps| && Touches(s.swaps[n].effect, path) ==> s.swaps[n].token == token
  }

  /** No request on the path is still to be noted. */
  ghost predicate NoneWaits(s: System, path: string) {
    forall n: nat :: !WaitsOn(s, n, path)
  }

  /** The session made every swap on the path, and has noted it. */
  ghost predicate AllNotedBy(s: System, token: string, path: string) {
    OnlyBy(s, token, path) && NoneWaits(s, path)
  }

  predicate WaitsOn(s: System, n: nat, path: string) {
    n in s.waiting && n < |s.swaps| && Touches(s.swaps[n].effect, path)
  }

  lemma {:induction false} OnAscends(swaps: seq<SwapRecord>, numbers: seq<nat>, path: string)
    requires Within(numbers, |swaps|) && Ascending(numbers)
    ensures Ascending(On(swaps, numbers, path))
    decreases |numbers|
  {
    if numbers == [] {
    } else {
      var front, last := numbers[..|numbers| - 1], numbers[|numbers| - 1];
      OnAscends(swaps, front, path);
      OnKeeps(swaps, front, path);
      var on := On(swaps, front, path);
      forall i | 0 <= i < |on|
        ensures on[i] < last
      {
        assert on[i] in on;
        assert on[i] in front;
      }
    }
  }

  lemma {:induction false} AscendingIsUnique(a: seq<nat>, b: seq<nat>)
    requires Ascending(a) && Ascending(b) && forall n :: n in a <==> n in b
    ensures a == b
    decreases |a|
  {
    assert (a != [] ==> a[|a| - 1] in a) && (b != [] ==> b[|b| - 1] in b);
    if a == [] {
    } else {
      assert b != [];
      assert a[|a| - 1] == b[|b| - 1];
      FrontMembers(a);
      FrontMembers(b);
      var front, rest := a[..|a| - 1], b[..|b| - 1];
      forall n
        ensures n in front <==> n in rest
      {
        assert n in front <==> n in a && n != a[|a| - 1];
        assert n in rest <==> n in b && n != b[|b| - 1];
      }
      AscendingIsUnique(front, rest);
      SplitLast(a);
      SplitLast(b);
    }
  }

  lemma FrontMembers(a: seq<nat>)
    requires a != [] && Ascending(a)
    ensures forall n :: n in a[..|a| - 1] <==> n in a && n != a[|a| - 1]
  {
    SplitLast(a);
  }

  /** A journal notes exactly the swaps on a path in their order when no other
      session swaps the path, none of its requests on it is still to be noted,
      and its notes on it come in the order of the swaps; and only then. */
  lemma SameNotesExactlyWhen(base: Disk, s: System, token: string, path: string, sha: Sha)
    requires Sound(base, s, sha)
    ensures Within(JournalOf(s, token), |s.swaps|)
    ensures NotesOn(s, token, path) == SwapsOn(s, path) <==>
            OnlyBy(s, token, path) && NoneWaits(s, path) && Ascending(NotesOn(s, token, path))
  {
    assert Owns(s, token);
    var notes, swaps := NotesOn(s, token, path), SwapsOn(s, path);
    OnKeeps(s.swaps, JournalOf(s, token), path);
    OnKeeps(s.swaps, UpTo(|s.swaps|), path);
    OnAscends(s.swaps, UpTo(|s.swaps|), path);
    NotedAreSwaps(s, JournalOf(s, token), path);
    if OnlyBy(s, token, path) && NoneWaits(s, path) && Ascending(notes) {
      forall n | n in swaps
        ensures n in notes
      {
        assert !WaitsOn(s, n, path);
        assert n in s.waiting || n in JournalOf(s, s.swaps[n].token);
      }
      AscendingIsUnique(notes, swaps);
    }
    if notes == swaps {
      forall n: nat | n < |s.swaps| && Touches(s.swaps[n].effect, path)
        ensures s.swaps[n].token == token && n !in s.waiting
      {
        assert UpTo(|s.swaps|)[n] == n;
        assert n in notes;
        assert n in JournalOf(s, token);
      }
    }
  }

  /** The swaps on a path end in what it holds now, and are a chain exactly when
      each found what its request had compared. */
  lemma SwapsTell(base: Disk, s: System, path: string, sha: Sha)
    requires Made(base, s, sha) && FoundTells(base, s, sha)
    ensures var start := HashAt(HashesOf(base.files, sha), path);
            && (Chain(start, s.swaps, SwapsOn(s, path), path) <==> AllFound(s, path))
            && EndOf(start, s.swaps, SwapsOn(s, path), path) == HashAt(HashesOf(s.disk.files, sha), path)
  {
    PathHistory(HashesOf(base.files, sha), s.swaps, UpTo(|s.swaps|), path);
  }

  /** A journal accounts for a path when its notes are the swaps on it in their
      order, each of which found what its request had compared. Unless a swap
      brought the path back to what it held before, no other journal does, if
      all swaps found what they should, or all are noted in this journal. */
  lemma AccountsExactlyWhen(base: Disk, s: System, token: string, path: string, sha: Sha)
    requires Sound(base, s, sha)
    ensures Within(JournalOf(s, token), |s.swaps|)
    ensures NotesOn(s, token, path) == SwapsOn(s, path) ==>
              (AccountsFor(base, s, token, path, sha) <==> AllFound(s, path))
    ensures NeverReturns(base, s, path, sha) && (AllFound(s, path) || AllNotedBy(s, token, path)) ==>
              (AccountsFor(base, s, token, path, sha) <==> NotesOn(s, token, path) == SwapsOn(s, path) && AllFound(s, path))
  {
    assert Owns(s, token);
    var numbers, start := JournalOf(s, token), HashAt(HashesOf(base.files, sha), path);
    PathHistory(HashesOf(base.files, sha), s.swaps, numbers, path);
    SwapsTell(base, s, path, sha);
    if NeverReturns(base, s, path, sha) && AccountsFor(base, s, token, path, sha) {
      if AllFound(s, path) {
        OnKeeps(s.swaps, numbers, path);
        NotedAreSwaps(s, numbers, path);
        ChainsAgree(start, s.swaps, SwapsOn(s, path), NotesOn(s, token, path), path);
      } else if AllNotedBy(s, token, path) {
        ChainAscends(base, s, numbers, path, sha);
        SameNotesExactlyWhen(base, s, token, path, sha);
      }
    }
  }

  lemma NotedAreSwaps(s: System, numbers: seq<nat>, path: string)
    requires Within(numbers, |s.swaps|)
    ensures forall n :: n in On(s.swaps, numbers, path) ==> n in SwapsOn(s, path)
  {
    OnKeeps(s.swaps, numbers, path);
    OnKeeps(s.swaps, UpTo(|s.swaps|), path);
    forall n | n in On(s.swaps, numbers, path)
      ensures n in SwapsOn(s, path)
    {
      assert UpTo(|s.swaps|)[n] == n;
    }
  }

  /** Notes that follow on one another are in the order of the swaps: each swap
      names what an earlier one left behind. */
  lemma ChainAscends(base: Disk, s: System, numbers: seq<nat>, path: string, sha: Sha)
    requires ComparedWasHeld(base, s, sha) && NeverReturns(base, s, path, sha) && Within(numbers, |s.swaps|)
    requires Chain(HashAt(HashesOf(base.files, sha), path), s.swaps, On(s.swaps, numbers, path), path)
    ensures Ascending(On(s.swaps, numbers, path))
  {
    NotedAreSwaps(s, numbers, path);
    LinksAscend(base, s, On(s.swaps, numbers, path), path, sha);
  }

  lemma {:induction false} LinksAscend(base: Disk, s: System, on: seq<nat>, path: string, sha: Sha)
    requires ComparedWasHeld(base, s, sha) && NeverReturns(base, s, path, sha) && AllTouch(s.swaps, on, path)
    requires forall n :: n in on ==> n in SwapsOn(s, path)
    requires Chain(HashAt(HashesOf(base.files, sha), path), s.swaps, on, path)
    ensures Ascending(on)
    decreases |on|
  {
    if |on| <= 1 {
    } else {
      var front, last := on[..|on| - 1], on[|on| - 1];
      LinksAscend(base, s, front, path, sha);
      NextLinkIsLater(base, s, front[|front| - 1], last, path, sha);
      AscendingGrows(front, last);
      SplitLast(on);
    }
  }

  lemma NextLinkIsLater(base: Disk, s: System, m: nat, n: nat, path: string, sha: Sha)
    requires ComparedWasHeld(base, s, sha) && NeverReturns(base, s, path, sha)
    requires m in SwapsOn(s, path) && n < |s.swaps| && Touches(s.swaps[n].effect, path)
    requires m < |s.swaps| && Touches(s.swaps[m].effect, path)
    requires s.swaps[n].effect.preimage == PostimageOf(s.swaps[m].effect)
    ensures m < n
  {
    var start, left := HashAt(HashesOf(base.files, sha), path), PostimageOf(s.swaps[m].effect);
    assert HeldBefore(start, s, n, path, left);
    SwapIsOn(s, m, path);
    assert left != start;
    var j: nat :| j < n && LeavesBehind(s, j, path, left);
    SwapIsOn(s, j, path);
    var on := SwapsOn(s, path);
    var k, l :| 0 <= k < |on| && on[k] == m && 0 <= l < |on| && on[l] == j;
  }

  lemma SwapIsOn(s: System, n: nat, path: string)
    requires n < |s.swaps| && Touches(s.swaps[n].effect, path)
    ensures n in SwapsOn(s, path)
  {
    OnKeeps(s.swaps, UpTo(|s.swaps|), path);
    assert UpTo(|s.swaps|)[n] == n;
  }

  // ----- The whole folder -----

  /** A journal accounts for everything the folder holds. */
  ghost predicate JournalAccounts(base: Disk, s: System, token: string, sha: Sha)
    requires Within(JournalOf(s, token), |s.swaps|)
  {
    var effects := EffectsAt(s.swaps, JournalOf(s, token));
    Consistent(HashesOf(base.files, sha), effects) && DoneAll(HashesOf(base.files, sha), effects) == HashesOf(s.disk.files, sha)
  }

  lemma AccountsPathByPath(base: Disk, s: System, token: string, sha: Sha)
    requires Within(JournalOf(s, token), |s.swaps|) && NeverNull(sha)
    ensures JournalAccounts(base, s, token, sha) <==> forall path :: AccountsFor(base, s, token, path, sha)
  {
    var before, effects := HashesOf(base.files, sha), EffectsAt(s.swaps, JournalOf(s, token));
    if forall path :: AccountsFor(base, s, token, path, sha) {
      forall i | 0 <= i < |effects| && !effects[i].Command?
        ensures effects[i].preimage == HashAt(DoneAll(before, effects[..i]), effects[i].path)
      {
        assert AccountsFor(base, s, token, effects[i].path, sha);
      }
      DoneAllIsProper(before, effects);
      forall path
        ensures HashAt(DoneAll(before, effects), path) == HashAt(HashesOf(s.disk.files, sha), path)
      {
        assert AccountsFor(base, s, token, path, sha);
      }
      SameHashesSameFolder(DoneAll(before, effects), HashesOf(s.disk.files, sha));
    }
  }

  /** Per path: no other session swaps it, no request on it is still to be noted,
      the notes on it come in the order of the swaps, and each swap on it found
      what its request had compared. */
  ghost predicate InOrder(s: System, token: string)
    requires Within(JournalOf(s, token), |s.swaps|)
  {
    forall path :: InOrderOn(s, token, path)
  }

  ghost predicate InOrderOn(s: System, token: string, path: string)
    requires Within(JournalOf(s, token), |s.swaps|)
  {
    OnlyBy(s, token, path) && NoneWaits(s, path) && Ascending(NotesOn(s, token, path)) && AllFound(s, path)
  }

  /** A journal whose notes are in order accounts for the whole folder. No other
      journal does, unless a path was brought back to what it held, or a swap of
      another session was lost under one that did not find what it compared. */
  lemma JournalAccountsExactlyWhen(base: Disk, s: System, token: string, sha: Sha)
    requires Sound(base, s, sha) && NeverNull(sha)
    ensures Within(JournalOf(s, token), |s.swaps|)
    ensures InOrder(s, token) ==> JournalAccounts(base, s, token, sha)
    ensures (forall path :: NeverReturns(base, s, path, sha)) &&
            (forall path :: AllFound(s, path) || AllNotedBy(s, token, path)) ==>
              (JournalAccounts(base, s, token, sha) <==> InOrder(s, token))
  {
    assert Owns(s, token);
    AccountsPathByPath(base, s, token, sha);
    forall path
      ensures InOrderOn(s, token, path) ==> AccountsFor(base, s, token, path, sha)
      ensures NeverReturns(base, s, path, sha) && (AllFound(s, path) || AllNotedBy(s, token, path)) ==>
                (AccountsFor(base, s, token, path, sha) ==> InOrderOn(s, token, path))
    {
      AccountsExactlyWhen(base, s, token, path, sha);
      SameNotesExactlyWhen(base, s, token, path, sha);
    }
  }

  // ----- What a page can see to -----

  /** A request compares on the path, and may go on. */
  predicate ComparesOn(s: System, step: Step, path: string, sha: Sha) {
    && step.Compare?
    && var prepared := PrepareOf(s.disk.files, step.request, sha);
       prepared.Some? && TouchedBy(prepared.value, path)
  }

  ghost predicate NoneUnder(s: System, path: string) {
    forall call :: !UnderOn(s, call, path)
  }

  /** Only one session changes the path, and it starts no request on it before
      the previous one on it is answered. */
  ghost predicate OneAtATimeOn(states: seq<System>, steps: seq<Step>, token: string, path: string, sha: Sha) {
    forall i :: 0 <= i < |steps| && i < |states| && ComparesOn(states[i], steps[i], path, sha) ==>
      steps[i].token == token && NoneUnder(states[i], path) && NoneWaits(states[i], path)
  }

  /** At most one request on the path is between its steps: it is the session's,
      nothing waits to be noted, and the path is as the request compared it. */
  ghost predicate CallsInTurn(s: System, token: string, path: string, sha: Sha) {
    && (forall c, d :: UnderOn(s, c, path) && UnderOn(s, d, path) ==> c == d)
    && (forall c :: UnderOn(s, c, path) ==>
          s.under[c].token == token && Current(s.disk.files, s.under[c].prepared, sha) && NoneWaits(s, path))
  }

  /** All swaps on the path are noted, in order. */
  ghost predicate Settled(s: System, token: string, path: string)
    requires Within(JournalOf(s, token), |s.swaps|)
  {
    NoneWaits(s, path) && SwapsOn(s, path) == NotesOn(s, token, path)
  }

  /** All but the last are; that one is still to be noted. */
  ghost predicate OneOpen(s: System, token: string, path: string, open: nat)
    requires Within(JournalOf(s, token), |s.swaps|)
  {
    && WaitsOn(s, open, path) && (forall n: nat :: WaitsOn(s, n, path) ==> n == open)
    && SwapsOn(s, path) == NotesOn(s, token, path) + [open]
  }

  ghost predicate NotesInTurn(s: System, token: string, path: string)
    requires Within(JournalOf(s, token), |s.swaps|)
  {
    Settled(s, token, path) || exists open: nat :: OneOpen(s, token, path, open)
  }

  ghost predicate InTurn(s: System, token: string, path: string, sha: Sha)
    requires Within(JournalOf(s, token), |s.swaps|)
  {
    && OnlyBy(s, token, path) && AllFound(s, path)
    && CallsInTurn(s, token, path, sha) && NotesInTurn(s, token, path)
  }

  lemma SettledWhenNoneWaits(s: System, token: string, path: string)
    requires Within(JournalOf(s, token), |s.swaps|) && NotesInTurn(s, token, path) && NoneWaits(s, path)
    ensures Settled(s, token, path)
  {
  }

  /** A comparison changes no more than which requests are between steps. */
  lemma CompareKeepsTurn(s: System, step: Step, token: string, path: string, sha: Sha)
    requires step.Compare? && Enabled(s, step)
    requires Within(JournalOf(s, token), |s.swaps|) && InTurn(s, token, path, sha)
    requires ComparesOn(s, step, path, sha) ==> step.token == token && NoneUnder(s, path) && NoneWaits(s, path)
    ensures Within(JournalOf(Next(s, step, sha), token), |Next(s, step, sha).swaps|)
    ensures InTurn(Next(s, step, sha), token, path, sha)
  {
    var s' := Next(s, step, sha);
    assert NotesOn(s', token, path) == NotesOn(s, token, path) && SwapsOn(s', path) == SwapsOn(s, path);
    assert forall n: nat :: WaitsOn(s', n, path) <==> WaitsOn(s, n, path);
    assert forall c :: UnderOn(s', c, path) && c != step.call ==> UnderOn(s, c, path);
    if UnderOn(s', step.call, path) {
      assert ComparesOn(s, step, path, sha);
      PreparedIsCurrent(s.disk.files, step.request, sha);
    }
    if open: nat :| OneOpen(s, token, path, open) {
      assert OneOpen(s', token, path, open);
    }
  }

  lemma PreparedIsCurrent(files: Files, request: Request, sha: Sha)
    requires PrepareOf(files, request, sha).Some?
    ensures Current(files, PrepareOf(files, request, sha).value, sha)
  {
  }

  /** What a swap adds to what was done on the path and to what is noted. */
  lemma SwappedGrows(s: System, call: nat, token: string, path: string, sha: Sha)
    requires call in s.under && Within(JournalOf(s, token), |s.swaps|) && NeverNull(sha)
    requires CommitOf(s.disk, s.under[call].prepared, sha).effect.Some?
    ensures var s' := AfterSwap(s, call, sha);
            && Within(JournalOf(s', token), |s'.swaps|)
            && NotesOn(s', token, path) == NotesOn(s, token, path)
            && SwapsOn(s', path) == if UnderOn(s, call, path) then SwapsOn(s, path) + [|s.swaps|] else SwapsOn(s, path)
  {
    var s' := AfterSwap(s, call, sha);
    SwapTouches(s, call, path, sha);
    SwapsOnGrows(s, s', s'.swaps[|s.swaps|], path);
    OnSurvives(s.swaps, s'.swaps[|s.swaps|], JournalOf(s, token), path);
    assert SwapsOn(s, path) + [] == SwapsOn(s, path);
  }

  lemma SwapTouches(s: System, call: nat, path: string, sha: Sha)
    requires call in s.under && CommitOf(s.disk, s.under[call].prepared, sha).effect.Some?
    ensures Touches(CommitOf(s.disk, s.under[call].prepared, sha).effect.value, path) <==> UnderOn(s, call, path)
  {
  }

  /** A swap on another path leaves what was done and what waits on this one. */
  lemma SwapElsewhere(s: System, call: nat, token: string, path: string, sha: Sha)
    requires call in s.under && !UnderOn(s, call, path) && NeverNull(sha)
    requires Within(JournalOf(s, token), |s.swaps|)
    ensures var s' := AfterSwap(s, call, sha);
            && Within(JournalOf(s', token), |s'.swaps|)
            && NotesOn(s', token, path) == NotesOn(s, token, path) && SwapsOn(s', path) == SwapsOn(s, path)
            && (OnlyBy(s, token, path) ==> OnlyBy(s', token, path)) && (AllFound(s, path) ==> AllFound(s', path))
            && (forall n: nat :: WaitsOn(s', n, path) <==> WaitsOn(s, n, path))
            && (forall c :: UnderOn(s', c, path) <==> UnderOn(s, c, path))
  {
    var s' := AfterSwap(s, call, sha);
    if CommitOf(s.disk, s.under[call].prepared, sha).effect.Some? {
      SwappedGrows(s, call, token, path, sha);
      SwapTouches(s, call, path, sha);
      assert !Touches(s'.swaps[|s.swaps|].effect, path);
      assert forall n: nat :: n < |s.swaps| ==> s'.swaps[n] == s.swaps[n];
    }
  }

  lemma SwapElsewhereKeepsTurn(s: System, call: nat, token: string, path: string, sha: Sha)
    requires call in s.under && !UnderOn(s, call, path) && NeverNull(sha)
    requires Within(JournalOf(s, token), |s.swaps|) && InTurn(s, token, path, sha)
    ensures Within(JournalOf(AfterSwap(s, call, sha), token), |AfterSwap(s, call, sha).swaps|)
    ensures InTurn(AfterSwap(s, call, sha), token, path, sha)
  {
    var s' := AfterSwap(s, call, sha);
    SwapElsewhere(s, call, token, path, sha);
    CommitStaysOnPath(s.disk, s.under[call].prepared, path, sha);
    assert forall c :: UnderOn(s', c, path) ==> s'.under[c] == s.under[c];
    if open: nat :| OneOpen(s, token, path, open) {
      assert OneOpen(s', token, path, open);
    }
  }

  /** A swap on the path whose request found what it compared. */
  lemma SwapHere(s: System, call: nat, token: string, path: string, sha: Sha)
    requires call in s.under && UnderOn(s, call, path) && s.under[call].token == token
    requires CommitOf(s.disk, s.under[call].prepared, sha).effect.Some? && StillHeld(s.disk.files, s.under[call].prepared, sha)
    ensures var s' := AfterSwap(s, call, sha);
            && (OnlyBy(s, token, path) ==> OnlyBy(s', token, path)) && (AllFound(s, path) ==> AllFound(s', path))
            && WaitsOn(s', |s.swaps|, path)
            && (forall n: nat :: WaitsOn(s', n, path) ==> n == |s.swaps| || WaitsOn(s, n, path))
            && (forall c :: UnderOn(s', c, path) ==> c != call && UnderOn(s, c, path))
  {
    var s' := AfterSwap(s, call, sha);
    SwapTouches(s, call, path, sha);
    assert s'.swaps[|s.swaps|].token == token && s'.swaps[|s.swaps|].found;
    assert forall n: nat :: n < |s.swaps| ==> s'.swaps[n] == s.swaps[n];
  }

  /** The one request between steps on the path takes effect, found what it
      compared, and is now the one to be noted. */
  lemma SwapHereKeepsTurn(s: System, call: nat, token: string, path: string, sha: Sha)
    requires call in s.under && UnderOn(s, call, path) && NeverNull(sha)
    requires Within(JournalOf(s, token), |s.swaps|) && InTurn(s, token, path, sha)
    ensures Within(JournalOf(AfterSwap(s, call, sha), token), |AfterSwap(s, call, sha).swaps|)
    ensures InTurn(AfterSwap(s, call, sha), token, path, sha)
  {
    var s' := AfterSwap(s, call, sha);
    UndisturbedCommitTakesEffect(s.disk, s.under[call].prepared, sha);
    SwappedGrows(s, call, token, path, sha);
    SwapHere(s, call, token, path, sha);
    SettledWhenNoneWaits(s, token, path);
    assert OneOpen(s', token, path, |s.swaps|);
  }

  lemma NotedGrows(s: System, n: nat, token: string, path: string, sha: Sha)
    requires Enabled(s, NoteSwap(n)) && Within(JournalOf(s, token), |s.swaps|)
    ensures var s' := Next(s, NoteSwap(n), sha);
            && Within(JournalOf(s', token), |s'.swaps|)
            && SwapsOn(s', path) == SwapsOn(s, path)
            && NotesOn(s', token, path) == if s.swaps[n].token == token && Touches(s.swaps[n].effect, path)
                                           then NotesOn(s, token, path) + [n] else NotesOn(s, token, path)
  {
    if s.swaps[n].token == token {
      OnAppend(s.swaps, JournalOf(s, token), n, path);
      assert NotesOn(s, token, path) + [] == NotesOn(s, token, path);
    }
  }

  /** Noting a swap ends its waiting, and no other's. */
  lemma NotedStopsWaiting(s: System, n: nat, path: string, sha: Sha)
    requires Enabled(s, NoteSwap(n))
    ensures forall m: nat :: WaitsOn(Next(s, NoteSwap(n), sha), m, path) <==> WaitsOn(s, m, path) && m != n
  {
  }

  lemma SettledAfterNote(s: System, n: nat, token: string, path: string, sha: Sha)
    requires Enabled(s, NoteSwap(n)) && Within(JournalOf(s, token), |s.swaps|) && !Touches(s.swaps[n].effect, path)
    requires Settled(s, token, path)
    ensures var s' := Next(s, NoteSwap(n), sha);
            Within(JournalOf(s', token), |s'.swaps|) && Settled(s', token, path)
  {
    NotedGrows(s, n, token, path, sha);
    NotedStopsWaiting(s, n, path, sha);
  }

  lemma OpenAfterNote(s: System, n: nat, token: string, path: string, open: nat, sha: Sha)
    requires Enabled(s, NoteSwap(n)) && Within(JournalOf(s, token), |s.swaps|) && !Touches(s.swaps[n].effect, path)
    requires OneOpen(s, token, path, open)
    ensures var s' := Next(s, NoteSwap(n), sha);
            Within(JournalOf(s', token), |s'.swaps|) && OneOpen(s', token, path, open)
  {
    NotedGrows(s, n, token, path, sha);
    NotedStopsWaiting(s, n, path, sha);
  }

  lemma NotedHere(s: System, n: nat, token: string, path: string, open: nat, sha: Sha)
    requires Enabled(s, NoteSwap(n)) && Within(JournalOf(s, token), |s.swaps|) && Touches(s.swaps[n].effect, path)
    requires OnlyBy(s, token, path) && OneOpen(s, token, path, open)
    ensures var s' := Next(s, NoteSwap(n), sha);
            Within(JournalOf(s', token), |s'.swaps|) && Settled(s', token, path)
  {
    assert WaitsOn(s, n, path) && n == open;
    NotedGrows(s, n, token, path, sha);
    NotedStopsWaiting(s, n, path, sha);
  }

  lemma NoteKeepsTurn(s: System, n: nat, token: string, path: string, sha: Sha)
    requires Enabled(s, NoteSwap(n)) && Within(JournalOf(s, token), |s.swaps|) && InTurn(s, token, path, sha)
    ensures Within(JournalOf(Next(s, NoteSwap(n), sha), token), |Next(s, NoteSwap(n), sha).swaps|)
    ensures InTurn(Next(s, NoteSwap(n), sha), token, path, sha)
  {
    var s' := Next(s, NoteSwap(n), sha);
    NotedStopsWaiting(s, n, path, sha);
    assert forall c :: UnderOn(s', c, path) <==> UnderOn(s, c, path);
    assert OnlyBy(s', token, path) && AllFound(s', path) && CallsInTurn(s', token, path, sha);
    if Touches(s.swaps[n].effect, path) {
      assert WaitsOn(s, n, path);
      var open: nat :| OneOpen(s, token, path, open);
      NotedHere(s, n, token, path, open, sha);
    } else if Settled(s, token, path) {
      SettledAfterNote(s, n, token, path, sha);
    } else {
      var open: nat :| OneOpen(s, token, path, open);
      OpenAfterNote(s, n, token, path, open, sha);
    }
  }

  lemma StepKeepsTurn(s: System, step: Step, token: string, path: string, sha: Sha)
    requires Enabled(s, step) && NeverNull(sha)
    requires Within(JournalOf(s, token), |s.swaps|) && InTurn(s, token, path, sha)
    requires ComparesOn(s, step, path, sha) ==> step.token == token && NoneUnder(s, path) && NoneWaits(s, path)
    ensures Within(JournalOf(Next(s, step, sha), token), |Next(s, step, sha).swaps|)
    ensures InTurn(Next(s, step, sha), token, path, sha)
  {
    match step {
      case Compare(_, _, _) => CompareKeepsTurn(s, step, token, path, sha);
      case Swap(call) =>
        if UnderOn(s, call, path) {
          SwapHereKeepsTurn(s, call, token, path, sha);
        } else {
          SwapElsewhereKeepsTurn(s, call, token, path, sha);
        }
      case NoteSwap(n) => NoteKeepsTurn(s, n, token, path, sha);
    }
  }

  lemma {:induction false} TurnsAreKept(base: Disk, states: seq<System>, steps: seq<Step>, i: nat, token: string, path: string, sha: Sha)
    requires Run(base, states, steps, sha) && OneAtATimeOn(states, steps, token, path, sha) && i < |states| && NeverNull(sha)
    ensures Within(JournalOf(states[i], token), |states[i].swaps|) && InTurn(states[i], token, path, sha)
    decreases i
  {
    if i == 0 {
      assert states[0] == System(base, map[], [], {}, map[]);
    } else {
      TurnsAreKept(base, states, steps, i - 1, token, path, sha);
      assert Leads(states[i - 1], steps[i - 1], states[i], sha);
      StepKeepsTurn(states[i - 1], steps[i - 1], token, path, sha);
    }
  }

  /** A session that is alone on a path and waits for each answer accounts for
      the path whenever none of its requests on it is still to be noted. */
  lemma OneAtATimeAccounts(base: Disk, states: seq<System>, steps: seq<Step>, i: nat, token: string, path: string, sha: Sha)
    requires Run(base, states, steps, sha) && OneAtATimeOn(states, steps, token, path, sha) && i < |states| && NeverNull(sha)
    requires NoneWaits(states[i], path)
    ensures Within(JournalOf(states[i], token), |states[i].swaps|)
    ensures AccountsFor(base, states[i], token, path, sha)
  {
    EveryStateIsSound(base, states, steps, i, sha);
    TurnsAreKept(base, states, steps, i, token, path, sha);
    SettledWhenNoneWaits(states[i], token, path);
    AccountsExactlyWhen(base, states[i], token, path, sha);
  }

  // ----- Only what was asked -----

  /** An earlier step of the run is where a session's request compared. */
  predicate AskedAt(steps: seq<Step>, k: nat, n: nat, token: string) {
    k < n && k < |steps| && steps[k].Compare? && steps[k].token == token
  }

  ghost predicate CallIsAsked(steps: seq<Step>, n: nat, call: Call) {
    exists k: nat :: AskedAt(steps, k, n, call.token) && PreparedFor(steps[k].request, call.prepared)
  }

  ghost predicate SwapIsAsked(steps: seq<Step>, n: nat, swap: SwapRecord, sha: Sha) {
    exists k: nat :: AskedAt(steps, k, n, swap.token) && EffectOf(steps[k].request, swap.effect, sha)
  }

  /** Every request between steps, and every swap, is of a request that its
      session made before, and does what that request asked. */
  ghost predicate AllAsked(s: System, steps: seq<Step>, n: nat, sha: Sha) {
    && (forall call :: call in s.under ==> CallIsAsked(steps, n, s.under[call]))
    && (forall m: nat :: m < |s.swaps| ==> SwapIsAsked(steps, n, s.swaps[m], sha))
  }

  lemma CallStaysAsked(steps: seq<Step>, n: nat, call: Call)
    requires CallIsAsked(steps, n, call)
    ensures CallIsAsked(steps, n + 1, call)
  {
    var k: nat :| AskedAt(steps, k, n, call.token) && PreparedFor(steps[k].request, call.prepared);
    assert AskedAt(steps, k, n + 1, call.token);
  }

  lemma SwapStaysAsked(steps: seq<Step>, n: nat, swap: SwapRecord, sha: Sha)
    requires SwapIsAsked(steps, n, swap, sha)
    ensures SwapIsAsked(steps, n + 1, swap, sha)
  {
    var k: nat :| AskedAt(steps, k, n, swap.token) && EffectOf(steps[k].request, swap.effect, sha);
    assert AskedAt(steps, k, n + 1, swap.token);
  }

  /** What was asked for stays asked for. */
  lemma AllStayAsked(s: System, steps: seq<Step>, n: nat, sha: Sha)
    requires AllAsked(s, steps, n, sha)
    ensures AllAsked(s, steps, n + 1, sha)
  {
    forall call | call in s.under
      ensures CallIsAsked(steps, n + 1, s.under[call])
    {
      CallStaysAsked(steps, n, s.under[call]);
    }
    forall m: nat | m < |s.swaps|
      ensures SwapIsAsked(steps, n + 1, s.swaps[m], sha)
    {
      SwapStaysAsked(steps, n, s.swaps[m], sha);
    }
  }

  lemma CompareKeepsAsked(s: System, steps: seq<Step>, n: nat, sha: Sha)
    requires n < |steps| && steps[n].Compare? && Enabled(s, steps[n]) && AllAsked(s, steps, n, sha)
    ensures AllAsked(Next(s, steps[n], sha), steps, n + 1, sha)
  {
    AllStayAsked(s, steps, n, sha);
    var request := steps[n].request;
    if PrepareOf(s.disk.files, request, sha).Some? {
      var call := Call(steps[n].token, PrepareOf(s.disk.files, request, sha).value);
      PrepareIsForRequest(s.disk.files, request, sha);
      assert AskedAt(steps, n, n + 1, call.token);
      assert CallIsAsked(steps, n + 1, call);
    }
  }

  lemma SwapKeepsAsked(s: System, call: nat, steps: seq<Step>, n: nat, sha: Sha)
    requires call in s.under && AllAsked(s, steps, n, sha)
    ensures AllAsked(AfterSwap(s, call, sha), steps, n + 1, sha)
  {
    var s' := AfterSwap(s, call, sha);
    AllStayAsked(s, steps, n, sha);
    if |s'.swaps| > |s.swaps| {
      var k: nat :| AskedAt(steps, k, n, s.under[call].token) && PreparedFor(steps[k].request, s.under[call].prepared);
      CommitDoesWhatWasAsked(s.disk, steps[k].request, s.under[call].prepared, sha);
      assert AskedAt(steps, k, n + 1, s.under[call].token);
      assert SwapIsAsked(steps, n + 1, s'.swaps[|s.swaps|], sha);
    }
  }

  /** Every effect in the folder's history is one that its session asked for:
      the path, the content and the preimage are those the request named. */
  lemma {:induction false} EffectsAreAsked(base: Disk, states: seq<System>, steps: seq<Step>, n: nat, sha: Sha)
    requires Run(base, states, steps, sha) && n < |states|
    ensures AllAsked(states[n], steps, n, sha)
    decreases n
  {
    if n == 0 {
    } else {
      EffectsAreAsked(base, states, steps, n - 1, sha);
      assert Leads(states[n - 1], steps[n - 1], states[n], sha);
      match steps[n - 1] {
        case Compare(_, _, _) => CompareKeepsAsked(states[n - 1], steps, n - 1, sha);
        case Swap(call) => SwapKeepsAsked(states[n - 1], call, steps, n - 1, sha);
        case NoteSwap(_) => AllStayAsked(states[n - 1], steps, n - 1, sha);
      }
    }
  }

  /** The step where a request compared what it is now to go on with. */
  predicate ComparesAs(states: seq<System>, steps: seq<Step>, k: nat, call: Call, sha: Sha) {
    && k < |states| && k < |steps| && steps[k].Compare? && steps[k].token == call.token
    && PrepareOf(states[k].disk.files, steps[k].request, sha) == Some(call.prepared)
  }

  ghost predicate WasCompared(states: seq<System>, steps: seq<Step>, n: nat, call: Call, sha: Sha) {
    exists k: nat :: k < n && ComparesAs(states, steps, k, call, sha)
  }

  lemma {:induction false} EveryCallWasCompared(base: Disk, states: seq<System>, steps: seq<Step>, n: nat, sha: Sha)
    requires Run(base, states, steps, sha) && n < |states|
    ensures forall call :: call in states[n].under ==> WasCompared(states, steps, n, states[n].under[call], sha)
    decreases n
  {
    if n == 0 {
    } else {
      EveryCallWasCompared(base, states, steps, n - 1, sha);
      assert Leads(states[n - 1], steps[n - 1], states[n], sha);
      forall call | call in states[n].under
        ensures WasCompared(states, steps, n, states[n].under[call], sha)
      {
        if call in states[n - 1].under && states[n].under[call] == states[n - 1].under[call] {
          var k: nat :| k < n - 1 && ComparesAs(states, steps, k, states[n].under[call], sha);
        } else {
          assert ComparesAs(states, steps, n - 1, states[n].under[call], sha);
        }
      }
    }
  }

  /** In any run, a request that changes the folder meets, on its path, the very
      file that stood there when it compared, or still none. So it never replaces
      or removes a file that was put there since. */
  lemma ChangesMeetTheComparedFile(base: Disk, states: seq<System>, steps: seq<Step>, n: nat, sha: Sha)
    requires Run(base, states, steps, sha) && n < |steps| && states[n + 1].disk != states[n].disk
    ensures steps[n].Swap? && steps[n].call in states[n].under
    ensures var call := states[n].under[steps[n].call];
            && !call.prepared.ToReport?
            && exists k: nat :: k < n && ComparesAs(states, steps, k, call, sha)
                 && TargetOf(states[k].disk.files, call.prepared.path) == TargetOf(states[n].disk.files, call.prepared.path)
  {
    assert Leads(states[n], steps[n], states[n + 1], sha);
    EveryCallWasCompared(base, states, steps, n, sha);
    var call := states[n].under[steps[n].call];
    CommitTouchesOnlyWhatItCompared(states[n].disk, call.prepared, sha);
    var k: nat :| k < n && ComparesAs(states, steps, k, call, sha);
    PreparedIsCurrent(states[k].disk.files, steps[k].request, sha);
  }

  // ----- What a receipt's records are worth -----

  /** On a path that the journal accounts for, the receipt's record names what
      the path held before and what it holds now; without one nothing changed. */
  lemma RecordIsTrue(base: Disk, s: System, token: string, path: string, files: seq<FileRecord>, sha: Sha)
    requires Within(JournalOf(s, token), |s.swaps|) && AccountsFor(base, s, token, path, sha)
    requires Summarises(files, EffectsAt(s.swaps, JournalOf(s, token)))
    ensures forall k :: 0 <= k < |files| && files[k].path == path ==>
              && files[k].preimage == HashAt(HashesOf(base.files, sha), path)
              && files[k].postimage == HashAt(HashesOf(s.disk.files, sha), path)
    ensures !Recorded(files, path) ==> HashAt(HashesOf(base.files, sha), path) == HashAt(HashesOf(s.disk.files, sha), path)
  {
    var before, effects := HashesOf(base.files, sha), EffectsAt(s.swaps, JournalOf(s, token));
    DoneAllAt(before, effects, path);
    TouchedBothWays(effects, path);
    var first := FirstTouch(effects, path);
    if first < |effects| {
      DoneAllAt(before, effects[..first], path);
      assert LastTouch(effects[..first], path) < 0;
    }
    forall k | 0 <= k < |files| && files[k].path == path
      ensures files[k].preimage == HashAt(before, path)
      ensures files[k].postimage == HashAt(HashesOf(s.disk.files, sha), path)
    {
      assert Sums(files[k], effects);
    }
  }

  /** When a session is alone on the folder and makes one request on a path at a
      time, the records of a receipt taken while nothing is under way turn the
      folder it found into the folder it left, and read backwards undo it. */
  lemma ReceiptCoversSession(base: Disk, states: seq<System>, steps: seq<Step>, i: nat, token: string,
                             files: seq<FileRecord>, sha: Sha)
    requires Run(base, states, steps, sha) && i < |states| && NeverNull(sha)
    requires forall path :: OneAtATimeOn(states, steps, token, path, sha) && NoneWaits(states[i], path)
    requires Within(JournalOf(states[i], token), |states[i].swaps|)
    requires Summarises(files, EffectsAt(states[i].swaps, JournalOf(states[i], token)))
    ensures var found, left := HashesOf(base.files, sha), HashesOf(states[i].disk.files, sha);
            Applied(found, files) == left && Applied(left, Backwards(files)) == found
  {
    forall path
      ensures AccountsFor(base, states[i], token, path, sha)
    {
      OneAtATimeAccounts(base, states, steps, i, token, path, sha);
    }
    AccountsPathByPath(base, states[i], token, sha);
    ReceiptSumsUpSession(HashesOf(base.files, sha), EffectsAt(states[i].swaps, JournalOf(states[i], token)), files);
  }

  // ----- Notes out of order -----

  /** A folder with one file. */
  function OneFile(path: string, held: Bytes): Disk {
    Disk(map[path := FileAt(0, held)], 1)
  }

  /** Two writes of one page, one after the other, the second noted before the
      first. */
  function TwoWrites(path: string, first: string, one: Bytes, second: string, two: Bytes): seq<Step> {
    [Compare(0, "t", WriteFile(path, first, one, false)), Swap(0),
     Compare(1, "t", WriteFile(path, second, two, false)), Swap(1),
     NoteSwap(1), NoteSwap(0)]
  }

  /** One write: what it compares and what it then does. */
  lemma OneWriteRuns(s: System, call: nat, token: string, path: string, held: Bytes, content: Bytes, sha: Sha)
    requires path != "" && |held| <= MAX_FILE_BYTES && |content| <= MAX_FILE_BYTES
    requires s.disk == OneFile(path, held) && call !in s.under
    ensures var compared := Next(s, Compare(call, token, WriteFile(path, sha(held), content, false)), sha);
            && compared == s.(under := s.under[call := Call(token, ToWrite(path, sha(held), Some(0), content))])
            && Enabled(compared, Swap(call))
            && Next(compared, Swap(call), sha) ==
               System(OneFile(path, content), s.under,
                      s.swaps + [SwapRecord(token, Effect.Write(path, sha(held), sha(content)), true)],
                      s.waiting + {|s.swaps|}, s.journals)
  {
    assert map[path := FileAt(0, held)][path := FileAt(0, content)] == map[path := FileAt(0, content)];
    var prepared := ToWrite(path, sha(held), Some(0), content);
    assert s.under[call := Call(token, prepared)] - {call} == s.under;
  }

  lemma LateNotes(s: System, a: SwapRecord, b: SwapRecord, sha: Sha) returns (s5: System, s6: System)
    requires s.swaps == [a, b] && a.token == "t" && b.token == "t" && s.waiting == {0, 1} && s.journals == map[]
    ensures Leads(s, NoteSwap(1), s5, sha) && Leads(s5, NoteSwap(0), s6, sha)
    ensures s6 == s.(waiting := {}, journals := map["t" := [1, 0]])
  {
    var none: seq<nat> := [];
    s5 := Next(s, NoteSwap(1), sha);
    assert JournalOf(s, "t") == none && none + [1] == [1];
    assert s5.journals == map["t" := [1]];
    s6 := Next(s5, NoteSwap(0), sha);
    assert [1] + [0] == [1, 0];
  }

  lemma TwoWritesRun(path: string, held: Bytes, one: Bytes, two: Bytes, sha: Sha) returns (states: seq<System>)
    requires path != "" && |held| <= MAX_FILE_BYTES && |one| <= MAX_FILE_BYTES && |two| <= MAX_FILE_BYTES
    ensures Run(OneFile(path, held), states, TwoWrites(path, sha(held), one, sha(one), two), sha) && |states| == 7
    ensures states[6].waiting == {} && states[6].disk == OneFile(path, two)
    ensures JournalOf(states[6], "t") == [1, 0]
    ensures states[6].swaps == [SwapRecord("t", Effect.Write(path, sha(held), sha(one)), true),
                                SwapRecord("t", Effect.Write(path, sha(one), sha(two)), true)]
  {
    var steps := TwoWrites(path, sha(held), one, sha(one), two);
    var a, b := SwapRecord("t", Effect.Write(path, sha(held), sha(one)), true), SwapRecord("t", Effect.Write(path, sha(one), sha(two)), true);
    var s0 := System(OneFile(path, held), map[], [], {}, map[]);
    OneWriteRuns(s0, 0, "t", path, held, one, sha);
    var s1 := Next(s0, steps[0], sha);
    var s2 := Next(s1, steps[1], sha);
    assert s2 == System(OneFile(path, one), map[], [a], {0}, map[]);
    OneWriteRuns(s2, 1, "t", path, one, two, sha);
    var s3 := Next(s2, steps[2], sha);
    var s4 := Next(s3, steps[3], sha);
    assert s4 == System(OneFile(path, two), map[], [a, b], {0, 1}, map[]);
    var s5, s6 := LateNotes(s4, a, b, sha);
    states := [s0, s1, s2, s3, s4, s5, s6];
  }

  lemma LateNoteSummary(path: string, h0: string, h1: string, h2: string)
    ensures Summarises([FileRecord(path, h1, h1)], [Effect.Write(path, h1, h2), Effect.Write(path, h0, h1)])
  {
    OneWriteSummary(path, h1, h2);
    var late, early := Effect.Write(path, h1, h2), Effect.Write(path, h0, h1);
    var record := FileRecord(path, h1, h2);
    LaterTouchKeepsSummary([record], [late], early, 0);
    assert [late] + [early] == [late, early] && [record][0 := FileRecord(path, h1, h1)] == [FileRecord(path, h1, h1)];
  }

  lemma OneWriteSummary(path: string, pre: string, post: string)
    ensures Summarises([FileRecord(path, pre, post)], [Effect.Write(path, pre, post)])
  {
    var write := Effect.Write(path, pre, post);
    assert !Recorded([], path) && Summarises([], []);
    FirstTouchAddsRecord([], [], write);
    assert [] + [write] == [write] && [] + [FileRecord(path, pre, post)] == [FileRecord(path, pre, post)];
  }

  /** Two requests of one page on one file, answered side by side, can be noted
      in the other order. The journal then does not account for the file, and a
      receipt says it holds what the first write put there. */
  lemma LateNotesMislead(path: string, held: Bytes, one: Bytes, two: Bytes, sha: Sha) returns (states: seq<System>)
    requires path != "" && |held| <= MAX_FILE_BYTES && |one| <= MAX_FILE_BYTES && |two| <= MAX_FILE_BYTES
    requires sha(held) != sha(one) && sha(one) != sha(two) && NeverNull(sha)
    ensures Run(OneFile(path, held), states, TwoWrites(path, sha(held), one, sha(one), two), sha) && |states| == 7
    ensures var s := states[6];
            && s.waiting == {} && Within(JournalOf(s, "t"), |s.swaps|)
            && !AccountsFor(OneFile(path, held), s, "t", path, sha)
            && var records := [FileRecord(path, sha(one), sha(one))];
               && Summarises(records, EffectsAt(s.swaps, JournalOf(s, "t")))
               && HashAt(Applied(HashesOf(OneFile(path, held).files, sha), records), path) == sha(one)
               && HashAt(HashesOf(s.disk.files, sha), path) == sha(two)
  {
    states := TwoWritesRun(path, held, one, two, sha);
    var s, records := states[6], [FileRecord(path, sha(one), sha(one))];
    var effects := EffectsAt(s.swaps, JournalOf(s, "t"));
    assert effects == [Effect.Write(path, sha(one), sha(two)), Effect.Write(path, sha(held), sha(one))];
    LateNoteSummary(path, sha(held), sha(one), sha(two));
    AppliedAt(HashesOf(OneFile(path, held).files, sha), records, 0);
    assert effects[..0] == [] && Touches(effects[0], path);
    assert HashAt(DoneAll(HashesOf(OneFile(path, held).files, sha), effects[..0]), path) == sha(held);
  }

  /** A content that comes back hides the order: two writes of what the file
      already holds account for it whichever is noted first. */
  lemma ReturningContentHidesOrder(path: string, held: Bytes, sha: Sha) returns (states: seq<System>)
    requires path != "" && |held| <= MAX_FILE_BYTES && NeverNull(sha)
    ensures Run(OneFile(path, held), states, TwoWrites(path, sha(held), held, sha(held), held), sha) && |states| == 7
    ensures var s := states[6];
            && Within(JournalOf(s, "t"), |s.swaps|)
            && AccountsFor(OneFile(path, held), s, "t", path, sha)
            && !Ascending(NotesOn(s, "t", path))
  {
    states := TwoWritesRun(path, held, held, held, sha);
    var s := states[6];
    var numbers, start := JournalOf(s, "t"), sha(held);
    assert numbers[..1] == [1] && numbers[..1][..0] == [];
    assert On(s.swaps, [], path) == [];
    OnAppend(s.swaps, [], 1, path);
    OnAppend(s.swaps, [1], 0, path);
    assert [] + [1] == [1] && [1] + [0] == [1, 0];
    assert NotesOn(s, "t", path) == [1, 0];
    ChainGrows(start, s.swaps, [], 1, path);
    ChainGrows(start, s.swaps, [1], 0, path);
    PathHistory(HashesOf(OneFile(path, held).files, sha), s.swaps, numbers, path);
  }

  // ----- Requests that cross -----

  /** Two writes that compare the same content before either goes on, noted in
      the order they were done. */
  function CrossingWrites(path: string, held: string, one: Bytes, two: Bytes, u: string): seq<Step> {
    [Compare(0, "t", WriteFile(path, held, one, false)), Compare(1, u, WriteFile(path, held, two, false)),
     Swap(0), Swap(1), NoteSwap(0), NoteSwap(1)]
  }

  /** What crossing writes do to the folder. */
  function CrossingSwaps(path: string, held: Bytes, one: Bytes, two: Bytes, u: string, sha: Sha): seq<SwapRecord> {
    [SwapRecord("t", Effect.Write(path, sha(held), sha(one)), true), SwapRecord(u, Effect.Write(path, sha(held), sha(two)), false)]
  }

  lemma CrossingCompares(path: string, held: Bytes, one: Bytes, two: Bytes, u: string, sha: Sha) returns (s1: System, s2: System)
    requires path != "" && |held| <= MAX_FILE_BYTES && |one| <= MAX_FILE_BYTES && |two| <= MAX_FILE_BYTES
    ensures var steps := CrossingWrites(path, sha(held), one, two, u);
            && Leads(System(OneFile(path, held), map[], [], {}, map[]), steps[0], s1, sha) && Leads(s1, steps[1], s2, sha)
    ensures s2 == System(OneFile(path, held), map[0 := Call("t", ToWrite(path, sha(held), Some(0), one)),
                                                  1 := Call(u, ToWrite(path, sha(held), Some(0), two))], [], {}, map[])
  {
    var steps, s0 := CrossingWrites(path, sha(held), one, two, u), System(OneFile(path, held), map[], [], {}, map[]);
    s1 := Next(s0, steps[0], sha);
    assert s1 == s0.(under := map[0 := Call("t", ToWrite(path, sha(held), Some(0), one))]);
    s2 := Next(s1, steps[1], sha);
  }

  /** A swap of one of the requests, on the file that both have compared. */
  lemma CrossingSwap(s: System, call: nat, preimage: string, held: Bytes, content: Bytes, path: string, sha: Sha)
    requires call in s.under && s.under[call].prepared == ToWrite(path, preimage, Some(0), content)
    requires s.disk == OneFile(path, held)
    ensures AfterSwap(s, call, sha) ==
            System(OneFile(path, content), s.under - {call},
                   s.swaps + [SwapRecord(s.under[call].token, Effect.Write(path, preimage, sha(content)), sha(held) == preimage)],
                   s.waiting + {|s.swaps|}, s.journals)
  {
    assert map[path := FileAt(0, held)][path := FileAt(0, content)] == map[path := FileAt(0, content)];
  }

  lemma CrossingNotes(s: System, path: string, held: Bytes, one: Bytes, two: Bytes, u: string, sha: Sha)
    returns (s5: System, s6: System)
    requires s.swaps == CrossingSwaps(path, held, one, two, u, sha) && s.waiting == {0, 1} && s.journals == map[]
    ensures Leads(s, NoteSwap(0), s5, sha) && Leads(s5, NoteSwap(1), s6, sha)
    ensures s6 == s.(waiting := {}, journals := if u == "t" then map["t" := [0, 1]] else map["t" := [0], u := [1]])
  {
    s5 := Next(s, NoteSwap(0), sha);
    var none: seq<nat> := [];
    assert JournalOf(s, "t") == none && none + [0] == [0];
    assert s5.journals == map["t" := [0]];
    s6 := Next(s5, NoteSwap(1), sha);
    assert [0] + [1] == [0, 1] && none + [1] == [1];
    assert s6.journals == map["t" := [0]][u := JournalOf(s5, u) + [1]];
  }

  lemma CrossingWritesRun(path: string, held: Bytes, one: Bytes, two: Bytes, u: string, sha: Sha) returns (states: seq<System>)
    requires path != "" && |held| <= MAX_FILE_BYTES && |one| <= MAX_FILE_BYTES && |two| <= MAX_FILE_BYTES
    requires sha(held) != sha(one)
    ensures Run(OneFile(path, held), states, CrossingWrites(path, sha(held), one, two, u), sha) && |states| == 7
    ensures states[6] == System(OneFile(path, two), map[], CrossingSwaps(path, held, one, two, u, sha), {},
                                if u == "t" then map["t" := [0, 1]] else map["t" := [0], u := [1]])
  {
    var s0 := System(OneFile(path, held), map[], [], {}, map[]);
    var s1, s2 := CrossingCompares(path, held, one, two, u, sha);
    CrossingSwap(s2, 0, sha(held), held, one, path, sha);
    var s3 := AfterSwap(s2, 0, sha);
    CrossingSwap(s3, 1, sha(held), one, two, path, sha);
    var s4 := AfterSwap(s3, 1, sha);
    assert s4.under == map[] && s4.swaps == CrossingSwaps(path, held, one, two, u, sha) && s4.waiting == {0, 1};
    var s5, s6 := CrossingNotes(s4, path, held, one, two, u, sha);
    states := [s0, s1, s2, s3, s4, s5, s6];
  }

  /** What crossing writes leave behind. */
  ghost predicate Crossed(s: System, path: string, held: Bytes, one: Bytes, two: Bytes, u: string, sha: Sha) {
    && s.disk == OneFile(path, two) && sha(held) != sha(one)
    && s.swaps == CrossingSwaps(path, held, one, two, u, sha)
  }

  lemma BothNoted(s: System, path: string, held: Bytes, one: Bytes, two: Bytes, sha: Sha)
    requires Crossed(s, path, held, one, two, "t", sha) && JournalOf(s, "t") == [0, 1]
    ensures Within(JournalOf(s, "t"), |s.swaps|)
    ensures NotesOn(s, "t", path) == [0, 1] && !AccountsFor(OneFile(path, held), s, "t", path, sha)
  {
    var none: seq<nat> := [];
    OnAppend(s.swaps, none, 0, path);
    OnAppend(s.swaps, [0], 1, path);
    assert none + [0] == [0] && [0] + [1] == [0, 1];
    var effects, before := EffectsAt(s.swaps, [0, 1]), HashesOf(OneFile(path, held).files, sha);
    assert effects[..1] == [effects[0]] && effects[..1][..0] == [];
    assert DoneAll(before, effects[..1]) == Put(before, path, sha(one));
    assert Touches(effects[1], path) && effects[1].preimage == sha(held);
  }

  lemma SecondNoted(s: System, path: string, held: Bytes, one: Bytes, two: Bytes, u: string, sha: Sha)
    requires Crossed(s, path, held, one, two, u, sha) && JournalOf(s, u) == [1] && NeverNull(sha)
    ensures Within(JournalOf(s, u), |s.swaps|)
    ensures NotesOn(s, u, path) == [1] && AccountsFor(OneFile(path, held), s, u, path, sha)
  {
    var none: seq<nat> := [];
    OnAppend(s.swaps, none, 1, path);
    assert none + [1] == [1];
    var effects := EffectsAt(s.swaps, [1]);
    assert effects == [s.swaps[1].effect] && effects[..0] == [];
  }

  lemma CrossedTells(s: System, path: string, held: Bytes, one: Bytes, two: Bytes, u: string, sha: Sha)
    requires Crossed(s, path, held, one, two, u, sha) && NeverNull(sha)
    requires JournalOf(s, u) == if u == "t" then [0, 1] else [1]
    ensures !AllFound(s, path) && Within(JournalOf(s, u), |s.swaps|)
    ensures Ascending(NotesOn(s, u, path))
    ensures AccountsFor(OneFile(path, held), s, u, path, sha) <==> u != "t"
    ensures OnlyBy(s, u, path) <==> u == "t"
  {
    assert Touches(s.swaps[0].effect, path) && Touches(s.swaps[1].effect, path);
    if u == "t" {
      BothNoted(s, path, held, one, two, sha);
    } else {
      SecondNoted(s, path, held, one, two, u, sha);
    }
  }

  /** Both writes pass and both are noted, in order; but the second overwrites
      what the first put there, and names as replaced what the first replaced.
      So a journal that notes both does not account for the file, and one that
      notes the second alone does. */
  lemma CrossingWritesLoseOne(path: string, held: Bytes, one: Bytes, two: Bytes, u: string, sha: Sha) returns (states: seq<System>)
    requires path != "" && |held| <= MAX_FILE_BYTES && |one| <= MAX_FILE_BYTES && |two| <= MAX_FILE_BYTES
    requires sha(held) != sha(one) && NeverNull(sha)
    ensures Run(OneFile(path, held), states, CrossingWrites(path, sha(held), one, two, u), sha) && |states| == 7
    ensures states[6].waiting == {} && !AllFound(states[6], path)
    ensures Within(JournalOf(states[6], u), |states[6].swaps|) && Ascending(NotesOn(states[6], u, path))
    ensures AccountsFor(OneFile(path, held), states[6], u, path, sha) <==> u != "t"
    ensures OnlyBy(states[6], u, path) <==> u == "t"
  {
    states := CrossingWritesRun(path, held, one, two, u, sha);
    CrossedTells(states[6], path, held, one, two, u, sha);
  }
}
