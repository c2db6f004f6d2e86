/** The text each effect is serialized to before it is hashed, field by field in
    the order they are declared (crates/app-server/src/journal.rs). */
module EffectTexts {
  import opened Common
  import opened AppJournals
  import Merkle
  import CanonicalJson
  import EventChain
  import EventStores

  function Quote(s: string): string {
    CanonicalJson.Quote(s)
  }

  function Integer(n: int): string {
    if n < 0 then "-" + EventStores.Decimal(-n) else EventStores.Decimal(n)
  }

  /** A quoted text after its label, and what follows. */
  function Labelled(lead: string, text: string, rest: string): string {
    lead + (Quote(text) + rest)
  }

  function Numbered(lead: string, n: int, rest: string): string {
    lead + (Integer(n) + rest)
  }

  function RanText(ran: Option<Ran>, rest: string): string {
    match ran
    case None => rest
    case Some(r) =>
      Labelled(",\"ran\":{\"action_id\":", r.actionId,
        Numbered(",\"exit_code\":", r.exitCode,
          Labelled(",\"statement_digest\":", r.statementDigest,
            Labelled(",\"sandbox_backend\":", r.sandboxBackend,
              Labelled(",\"sandbox_enforcement\":", r.sandboxEnforcement,
                Numbered(",\"duration_ms\":", r.durationMs, "}" + rest))))))
  }

  function NotRunText(notRun: Option<string>, rest: string): string {
    match notRun
    case None => rest
    case Some(reason) => Labelled(",\"not_run\":", reason, rest)
  }

  function TextOf(effect: Effect): string {
    match effect
    case Write(path, preimage, postimage) =>
      Labelled("{\"effect\":\"write\",\"path\":", path,
        Labelled(",\"preimage_hash\":", preimage, Labelled(",\"postimage_hash\":", postimage, "}")))
    case Remove(path, preimage) =>
      Labelled("{\"effect\":\"remove\",\"path\":", path, Labelled(",\"preimage_hash\":", preimage, "}"))
    case Command(command, directory, ran, notRun) =>
      Labelled("{\"effect\":\"command\",\"command\":", command,
        Labelled(",\"directory\":", directory, RanText(ran, NotRunText(notRun, "}"))))
  }

  // ----- One reading -----

  lemma AfterLabel(lead: string, x: string, y: string)
    requires lead + x == lead + y
    ensures x == y
  {
    assert (lead + x)[|lead|..] == x && (lead + y)[|lead|..] == y;
  }

  /** A labelled text has one reading, and so has what follows it. */
  lemma LabelledIsRead(lead: string, a: string, x: string, b: string, y: string)
    requires Labelled(lead, a, x) == Labelled(lead, b, y)
    ensures a == b && x == y
  {
    AfterLabel(lead, Quote(a) + x, Quote(b) + y);
    CanonicalJson.FieldKeyIsRead(a, x);
    CanonicalJson.FieldKeyIsRead(b, y);
  }

  predicate InInteger(c: char) {
    c == '-' || '0' <= c <= '9'
  }

  predicate EndsInteger(rest: string) {
    rest != [] && !InInteger(rest[0])
  }

  lemma IntegerCharacters(n: int)
    ensures Integer(n) != [] && forall i :: 0 <= i < |Integer(n)| ==> InInteger(Integer(n)[i])
  {
    EventChain.DecimalDigits(if n < 0 then -n else n);
  }

  /** The sign shows in the first character. */
  lemma SignShows(n: int)
    ensures Integer(n) != [] && (n < 0 <==> Integer(n)[0] == '-')
  {
    EventChain.DecimalDigits(if n < 0 then -n else n);
  }

  lemma IntegerIsInjective(m: int, n: int)
    requires Integer(m) == Integer(n)
    ensures m == n
  {
    SignShows(m);
    SignShows(n);
    if m < 0 {
      AfterLabel("-", EventStores.Decimal(-m), EventStores.Decimal(-n));
      EventChain.DecimalIsInjective(-m, -n);
    } else {
      EventChain.DecimalIsInjective(m, n);
    }
  }

  /** Where the characters of an integer stop, it ends. */
  lemma {:induction false} IntegerEnds(a: string, x: string, b: string, y: string)
    requires forall i :: 0 <= i < |a| ==> InInteger(a[i])
    requires forall i :: 0 <= i < |b| ==> InInteger(b[i])
    requires EndsInteger(x) && EndsInteger(y) && a + x == b + y
    ensures a == b && x == y
    decreases |a|
  {
    var s, t := a + x, b + y;
    assert s[0] == t[0];
    assert (a == [] ==> s[0] == x[0]) && (b == [] ==> t[0] == y[0]);
    if a != [] && b != [] {
      assert s[1..] == a[1..] + x && t[1..] == b[1..] + y;
      IntegerEnds(a[1..], x, b[1..], y);
      assert a == [a[0]] + a[1..] && b == [b[0]] + b[1..];
    } else {
      assert a == [] && b == [];
      assert s == x && t == y;
    }
  }

  lemma NumberedIsRead(lead: string, m: int, x: string, n: int, y: string)
    requires EndsInteger(x) && EndsInteger(y) && Numbered(lead, m, x) == Numbered(lead, n, y)
    ensures m == n && x == y
  {
    AfterLabel(lead, Integer(m) + x, Integer(n) + y);
    IntegerCharacters(m);
    IntegerCharacters(n);
    IntegerEnds(Integer(m), x, Integer(n), y);
    IntegerIsInjective(m, n);
  }

  /** A labelled text starts with its label. */
  lemma LabelAt(lead: string, text: string, rest: string, i: nat)
    requires i < |lead|
    ensures i < |Labelled(lead, text, rest)| && Labelled(lead, text, rest)[i] == lead[i]
  {
  }

  lemma RanIsRead(r: Ran, x: string, s: Ran, y: string)
    requires RanText(Some(r), x) == RanText(Some(s), y)
    ensures r == s && x == y
  {
    var r4 := Numbered(",\"duration_ms\":", r.durationMs, "}" + x);
    var s4 := Numbered(",\"duration_ms\":", s.durationMs, "}" + y);
    var r3, s3 := Labelled(",\"sandbox_enforcement\":", r.sandboxEnforcement, r4), Labelled(",\"sandbox_enforcement\":", s.sandboxEnforcement, s4);
    var r2, s2 := Labelled(",\"sandbox_backend\":", r.sandboxBackend, r3), Labelled(",\"sandbox_backend\":", s.sandboxBackend, s3);
    var r1, s1 := Labelled(",\"statement_digest\":", r.statementDigest, r2), Labelled(",\"statement_digest\":", s.statementDigest, s2);
    var r0, s0 := Numbered(",\"exit_code\":", r.exitCode, r1), Numbered(",\"exit_code\":", s.exitCode, s1);
    LabelledIsRead(",\"ran\":{\"action_id\":", r.actionId, r0, s.actionId, s0);
    LabelAt(",\"statement_digest\":", r.statementDigest, r2, 0);
    LabelAt(",\"statement_digest\":", s.statementDigest, s2, 0);
    NumberedIsRead(",\"exit_code\":", r.exitCode, r1, s.exitCode, s1);
    LabelledIsRead(",\"statement_digest\":", r.statementDigest, r2, s.statementDigest, s2);
    LabelledIsRead(",\"sandbox_backend\":", r.sandboxBackend, r3, s.sandboxBackend, s3);
    LabelledIsRead(",\"sandbox_enforcement\":", r.sandboxEnforcement, r4, s.sandboxEnforcement, s4);
    NumberedIsRead(",\"duration_ms\":", r.durationMs, "}" + x, s.durationMs, "}" + y);
    AfterLabel("}", x, y);
  }

  lemma NotRunIsRead(a: Option<string>, b: Option<string>)
    requires NotRunText(a, "}") == NotRunText(b, "}")
    ensures a == b
  {
    if a.Some? {
      LabelAt(",\"not_run\":", a.value, "}", 0);
    }
    if b.Some? {
      LabelAt(",\"not_run\":", b.value, "}", 0);
    }
    if a.Some? && b.Some? {
      LabelledIsRead(",\"not_run\":", a.value, "}", b.value, "}");
    }
  }

  /** Whether a command ran shows in the third character. */
  lemma RanShows(ran: Option<Ran>, notRun: Option<string>)
    ensures var text := RanText(ran, NotRunText(notRun, "}"));
            ran.Some? <==> |text| > 2 && text[2] == 'r'
  {
    if ran.Some? {
      assert RanText(ran, NotRunText(notRun, "}"))[2] == ",\"ran\":{\"action_id\":"[2];
    } else if notRun.Some? {
      LabelAt(",\"not_run\":", notRun.value, "}", 2);
    }
  }

  lemma OutcomeIsRead(ran: Option<Ran>, notRun: Option<string>, ran': Option<Ran>, notRun': Option<string>)
    requires RanText(ran, NotRunText(notRun, "}")) == RanText(ran', NotRunText(notRun', "}"))
    ensures ran == ran' && notRun == notRun'
  {
    RanShows(ran, notRun);
    RanShows(ran', notRun');
    if ran.Some? {
      RanIsRead(ran.value, NotRunText(notRun, "}"), ran'.value, NotRunText(notRun', "}"));
    }
    NotRunIsRead(notRun, notRun');
  }

  /** The twelfth character tells the kinds of effect apart. */
  lemma KindShows(e: Effect)
    ensures |TextOf(e)| > 11
    ensures TextOf(e)[11] == if e.Write? then 'w' else if e.Remove? then 'r' else 'c'
  {
    match e {
      case Write(path, preimage, postimage) =>
        LabelAt("{\"effect\":\"write\",\"path\":", path, Labelled(",\"preimage_hash\":", preimage, Labelled(",\"postimage_hash\":", postimage, "}")), 11);
      case Remove(path, preimage) =>
        LabelAt("{\"effect\":\"remove\",\"path\":", path, Labelled(",\"preimage_hash\":", preimage, "}"), 11);
      case Command(command, directory, ran, notRun) =>
        LabelAt("{\"effect\":\"command\",\"command\":", command, Labelled(",\"directory\":", directory, RanText(ran, NotRunText(notRun, "}"))), 11);
    }
  }

  lemma WriteIsRead(d: Effect, e: Effect)
    requires d.Write? && e.Write? && TextOf(d) == TextOf(e)
    ensures d == e
  {
    var d2, e2 := Labelled(",\"postimage_hash\":", d.postimage, "}"), Labelled(",\"postimage_hash\":", e.postimage, "}");
    var d1, e1 := Labelled(",\"preimage_hash\":", d.preimage, d2), Labelled(",\"preimage_hash\":", e.preimage, e2);
    LabelledIsRead("{\"effect\":\"write\",\"path\":", d.path, d1, e.path, e1);
    LabelledIsRead(",\"preimage_hash\":", d.preimage, d2, e.preimage, e2);
    LabelledIsRead(",\"postimage_hash\":", d.postimage, "}", e.postimage, "}");
  }

  lemma RemoveIsRead(d: Effect, e: Effect)
    requires d.Remove? && e.Remove? && TextOf(d) == TextOf(e)
    ensures d == e
  {
    var d1, e1 := Labelled(",\"preimage_hash\":", d.preimage, "}"), Labelled(",\"preimage_hash\":", e.preimage, "}");
    LabelledIsRead("{\"effect\":\"remove\",\"path\":", d.path, d1, e.path, e1);
    LabelledIsRead(",\"preimage_hash\":", d.preimage, "}", e.preimage, "}");
  }

  lemma CommandIsRead(d: Effect, e: Effect)
    requires d.Command? && e.Command? && TextOf(d) == TextOf(e)
    ensures d == e
  {
    var d2, e2 := RanText(d.ran, NotRunText(d.notRun, "}")), RanText(e.ran, NotRunText(e.notRun, "}"));
    var d1, e1 := Labelled(",\"directory\":", d.directory, d2), Labelled(",\"directory\":", e.directory, e2);
    LabelledIsRead("{\"effect\":\"command\",\"command\":", d.command, d1, e.command, e1);
    LabelledIsRead(",\"directory\":", d.directory, d2, e.directory, e2);
    OutcomeIsRead(d.ran, d.notRun, e.ran, e.notRun);
  }

  /** Different effects are serialized differently. */
  lemma TextTellsEffectsApart(d: Effect, e: Effect)
    ensures TextOf(d) == TextOf(e) <==> d == e
  {
    if TextOf(d) == TextOf(e) {
      KindShows(d);
      KindShows(e);
      match d {
        case Write(_, _, _) => WriteIsRead(d, e);
        case Remove(_, _) => RemoveIsRead(d, e);
        case Command(_, _, _, _) => CommandIsRead(d, e);
      }
    }
  }

  /** Equally many effects with one receipt root are the same effects in the same
      order, barring a collision among what is hashed for the two roots. */
  lemma ReceiptRootCommitsToEffects(a: seq<Effect>, b: seq<Effect>, raw: Merkle.RawSha, inputs: set<Bytes>)
    requires Merkle.DigestBytes(raw) && |a| == |b| && CollisionFreeOn(raw, inputs)
    requires Merkle.HashedForRoot(Bodies(a, TextOf), raw) <= inputs && Merkle.HashedForRoot(Bodies(b, TextOf), raw) <= inputs
    requires ReceiptRoot(a, TextOf, raw) == ReceiptRoot(b, TextOf, raw)
    ensures a == b
  {
    forall i, j | 0 <= i < |a| && 0 <= j < |b| && TextOf(a[i]) == TextOf(b[j])
      ensures a[i] == b[j]
    {
      TextTellsEffectsApart(a[i], b[j]);
    }
    RootCommitsToEffects(a, b, TextOf, raw, inputs);
  }
}
