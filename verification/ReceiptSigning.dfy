/** What the signature on a receipt covers (crates/receipts/src/lib.rs). */
module ReceiptSigning {
  import opened Common
  import opened CanonicalJson

  function Joined(parts: seq<string>): string {
    if parts == [] then ""
    else if |parts| == 1 then parts[0]
    else parts[0] + "," + Joined(parts[1..])
  }

  /** The receipts' own encoder, built from joined lists. */
  ghost function CanonicalizeValue(v: Json): string
    decreases v
  {
    match v
    case Null => "null"
    case Bool(b) => if b then "true" else "false"
    case Number(token) => token
    case Str(text) => Quote(text)
    case Arr(items) =>
      "[" + Joined(seq(|items|, i requires 0 <= i < |items| => CanonicalizeValue(items[i]))) + "]"
    case Obj(fields) =>
      var keys := SortedKeys(fields.Keys);
      "{" + Joined(seq(|keys|, i requires 0 <= i < |keys| => Quote(keys[i]) + ":" + CanonicalizeValue(fields[keys[i]]))) + "}"
  }

  lemma {:induction false} JoinedItems(v: Json, parts: seq<string>, i: nat)
    requires v.Arr? && |parts| == |v.items| && i <= |parts|
    requires forall k :: 0 <= k < |parts| ==> parts[k] == Canonical(v.items[k])
    ensures i < |parts| ==> (if i > 0 then "," else "") + Joined(parts[i..]) == ItemsFrom(v, i)
    decreases |parts| - i
  {
    if i + 1 < |parts| {
      JoinedItems(v, parts, i + 1);
      JoinedTwo(parts[i..], parts[i], parts[i + 1..]);
      Regrouped(if i > 0 then "," else "", parts[i], Joined(parts[i + 1..]));
    } else if i < |parts| {
      assert parts[i..] == [parts[i]];
    }
  }

  lemma {:induction false} JoinedFields(v: Json, keys: seq<string>, parts: seq<string>, i: nat)
    requires v.Obj? && |parts| == |keys| && i <= |parts| && forall k :: k in keys ==> k in v.fields
    requires forall k :: 0 <= k < |parts| ==> parts[k] == Quote(keys[k]) + ":" + Canonical(v.fields[keys[k]])
    ensures i < |parts| ==> (if i > 0 then "," else "") + Joined(parts[i..]) == FieldsFrom(v, keys, i)
    decreases |parts| - i
  {
    if i < |parts| {
      LeadThenValue(if i > 0 then "," else "", Quote(keys[i]), Canonical(v.fields[keys[i]]));
    }
    if i + 1 < |parts| {
      JoinedFields(v, keys, parts, i + 1);
      JoinedTwo(parts[i..], parts[i], parts[i + 1..]);
      Regrouped(if i > 0 then "," else "", parts[i], Joined(parts[i + 1..]));
    } else if i < |parts| {
      assert parts[i..] == [parts[i]];
    }
  }

  lemma JoinedTwo(parts: seq<string>, first: string, rest: seq<string>)
    requires parts == [first] + rest && rest != []
    ensures Joined(parts) == first + "," + Joined(rest)
  {
    assert parts[1..] == rest;
  }

  lemma Regrouped(a: string, b: string, c: string)
    ensures a + (b + "," + c) == a + b + ("," + c)
  {
  }

  lemma LeadThenValue(a: string, key: string, value: string)
    ensures a + (key + ":" + value) == a + key + ":" + value
  {
  }

  /** The receipts' encoder and the tools' encoder write the same text. */
  lemma {:induction false} EncodersAgree(v: Json)
    ensures CanonicalizeValue(v) == Canonical(v)
    decreases v
  {
    match v {
      case Arr(items) =>
        var parts := seq(|items|, i requires 0 <= i < |items| => CanonicalizeValue(items[i]));
        forall i | 0 <= i < |items|
          ensures parts[i] == Canonical(items[i])
        {
          EncodersAgree(items[i]);
        }
        JoinedItems(v, parts, 0);
        assert parts[0..] == parts && "" + Joined(parts) == Joined(parts);
      case Obj(fields) =>
        var keys := SortedKeys(fields.Keys);
        var parts := seq(|keys|, i requires 0 <= i < |keys| => Quote(keys[i]) + ":" + CanonicalizeValue(fields[keys[i]]));
        forall i | 0 <= i < |keys|
          ensures parts[i] == Quote(keys[i]) + ":" + Canonical(fields[keys[i]])
        {
          EncodersAgree(fields[keys[i]]);
        }
        JoinedFields(v, keys, parts, 0);
        assert parts[0..] == parts && "" + Joined(parts) == Joined(parts);
      case _ =>
    }
  }

  const SIGNATURE: string := "device_signature"

  /** What is signed: the receipt with its own signature blanked. */
  ghost function SignedText(receipt: Json): string
    requires receipt.Obj?
  {
    CanonicalizeValue(Blanked(receipt))
  }

  function Blanked(receipt: Json): (blanked: Json)
    requires receipt.Obj?
    ensures WellFormed(receipt) ==> WellFormed(blanked)
  {
    Obj(receipt.fields[SIGNATURE := Str("")])
  }

  /** The signature covers every field but itself: two receipts are signed as
      the same text exactly when they agree on everything else. */
  lemma SignatureCoversTheRest(a: Json, b: Json)
    requires a.Obj? && b.Obj? && WellFormed(a) && WellFormed(b)
    requires SIGNATURE in a.fields && SIGNATURE in b.fields
    ensures SignedText(a) == SignedText(b) <==> a.fields - {SIGNATURE} == b.fields - {SIGNATURE}
  {
    var x, y := Blanked(a), Blanked(b);
    EncodersAgree(x);
    EncodersAgree(y);
    BlankingKeepsTheRest(a.fields, b.fields, SIGNATURE, Str(""));
    if SignedText(a) == SignedText(b) {
      CanonicalIsInjective(x, y);
    }
  }

  lemma BlankingKeepsTheRest(f: map<string, Json>, g: map<string, Json>, key: string, blank: Json)
    ensures f[key := blank] == g[key := blank] <==> f - {key} == g - {key}
  {
    assert f - {key} == f[key := blank] - {key} && g - {key} == g[key := blank] - {key};
    assert f[key := blank] == (f - {key})[key := blank] && g[key := blank] == (g - {key})[key := blank];
  }
}
