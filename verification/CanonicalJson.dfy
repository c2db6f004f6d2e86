/** The canonical JSON text an approval's digest is taken of
    (crates/tools/src/lib.rs), with the parser that shows it has one reading. */
module CanonicalJson {
  import opened Common
  import opened TextOrder

  /** A JSON value. A number is the token it prints as; an object has no order. */
  datatype Json =
    | Null
    | Bool(b: bool)
    | Number(token: string)
    | Str(text: string)
    | Arr(items: seq<Json>)
    | Obj(fields: map<string, Json>)

  predicate Digit(c: char) {
    '0' <= c <= '9'
  }

  predicate NumberChar(c: char) {
    Digit(c) || c == '-' || c == '+' || c == '.' || c == 'e' || c == 'E'
  }

  predicate ValidToken(token: string) {
    && token != []
    && (Digit(token[0]) || token[0] == '-')
    && forall i :: 0 <= i < |token| ==> NumberChar(token[i])
  }

  /** Every number in the value is a token a number can print as. */
  predicate WellFormed(v: Json) {
    match v
    case Number(token) => ValidToken(token)
    case Arr(items) => forall i :: 0 <= i < |items| ==> WellFormed(items[i])
    case Obj(fields) => forall k <- fields.Keys :: WellFormed(fields[k])
    case _ => true
  }

  // ----- Strings -----

  /** One character as it stands inside a quoted string. */
  function Escape(c: char): string {
    if c == '\"' then "\\\""
    else if c == '\\' then "\\\\"
    else if c as int == 8 then "\\b"
    else if c as int == 12 then "\\f"
    else if c == '\n' then "\\n"
    else if c == '\r' then "\\r"
    else if c == '\t' then "\\t"
    else if c as int < 32 then "\\u00" + [HexDigit(c as int / 16), HexDigit(c as int % 16)]
    else [c]
  }

  function EscapeAll(s: string): string {
    if s == [] then [] else Escape(s[0]) + EscapeAll(s[1..])
  }

  function Quote(s: string): string {
    "\"" + EscapeAll(s) + "\""
  }

  // ----- Writing -----

  /** The keys of an object in order. */
  ghost function SortedKeys(keys: set<string>): (sorted: seq<string>)
    ensures StrictlySorted(sorted)
    ensures forall k :: k in sorted <==> k in keys
  {
    if keys == {} then []
    else
      var k :| k in keys;
      var rest := SortedKeys(keys - {k});
      InsertSorts(rest, k);
      Insert(rest, k)
  }

  /** The canonical text of a value. */
  ghost function Canonical(v: Json): string
    decreases v
  {
    match v
    case Null => "null"
    case Bool(b) => if b then "true" else "false"
    case Number(token) => token
    case Str(text) => Quote(text)
    case Arr(_) => "[" + ItemsFrom(v, 0) + "]"
    case Obj(fields) => "{" + FieldsFrom(v, SortedKeys(fields.Keys), 0) + "}"
  }

  ghost function ItemsFrom(v: Json, i: nat): string
    requires v.Arr? && i <= |v.items|
    decreases v, |v.items| - i
  {
    if i == |v.items| then ""
    else (if i > 0 then "," else "") + Canonical(v.items[i]) + ItemsFrom(v, i + 1)
  }

  ghost function FieldsFrom(v: Json, keys: seq<string>, i: nat): string
    requires v.Obj? && i <= |keys| && forall k :: k in keys ==> k in v.fields
    decreases v, |keys| - i
  {
    if i == |keys| then ""
    else Lead(keys[i], i > 0) + Canonical(v.fields[keys[i]]) + FieldsFrom(v, keys, i + 1)
  }

  /** Writes `value` at the end of `out`, collecting an object's keys in
      whatever order its map yields them. */
  method WriteCanonical(value: Json, out: string) returns (written: string)
    ensures written == out + Canonical(value)
    decreases value
  {
    match value {
      case Obj(_) => written := WriteObject(value, out);
      case Arr(_) => written := WriteArray(value, out);
      case Null => written := out + "null";
      case Bool(b) => written := out + if b then "true" else "false";
      case Number(token) => written := out + token;
      case Str(text) => written := out + Quote(text);
    }
  }

  method WriteArray(value: Json, out: string) returns (written: string)
    requires value.Arr?
    ensures written == out + Canonical(value)
    decreases value, 1
  {
    written := out + "[";
    for i := 0 to |value.items|
      invariant written + ItemsFrom(value, i) == out + ("[" + ItemsFrom(value, 0))
    {
      ghost var before := written;
      if i > 0 {
        written := written + ",";
      }
      written := WriteCanonical(value.items[i], written);
      Regroup(before, if i > 0 then "," else "", Canonical(value.items[i]), ItemsFrom(value, i + 1));
    }
    assert written + "" == written;
    Enclose(out, "[", ItemsFrom(value, 0), "]");
    written := written + "]";
  }

  method WriteObject(value: Json, out: string) returns (written: string)
    requires value.Obj?
    ensures written == out + Canonical(value)
    decreases value, 1
  {
    var keys := SortStrings(value.fields.Keys);
    SortedIsUnique(keys, SortedKeys(value.fields.Keys));
    written := out + "{";
    for i := 0 to |keys|
      invariant written + FieldsFrom(value, keys, i) == out + ("{" + FieldsFrom(value, keys, 0))
    {
      assert keys[i] in keys;
      ghost var before := written;
      written := WriteField(value, keys[i], i > 0, written);
      Regroup(before, Lead(keys[i], i > 0), Canonical(value.fields[keys[i]]), FieldsFrom(value, keys, i + 1));
    }
    assert written + "" == written;
    Enclose(out, "{", FieldsFrom(value, keys, 0), "}");
    written := written + "}";
  }

  /** What stands before a field's value. */
  function Lead(key: string, separate: bool): string {
    (if separate then "," else "") + Quote(key) + ":"
  }

  method WriteField(value: Json, key: string, separate: bool, out: string) returns (written: string)
    requires value.Obj? && key in value.fields
    ensures written == (out + Lead(key, separate)) + Canonical(value.fields[key])
    decreases value, 0
  {
    written := out;
    if separate {
      written := written + ",";
    }
    written := written + Quote(key);
    written := written + ":";
    assert written == out + Lead(key, separate);
    written := WriteCanonical(value.fields[key], written);
  }

  lemma Enclose(out: string, open: string, body: string, close: string)
    ensures (out + (open + body)) + close == out + (open + body + close)
  {
  }

  lemma Regroup(a: string, b: string, c: string, d: string)
    ensures a + (b + c + d) == ((a + b) + c) + d
    ensures b == "" ==> a + (b + c + d) == (a + c) + d
  {
  }

  // ----- Parsing -----

  /** The rest of a quoted string, up to its closing quote. */
  function ParseText(s: string): (r: Option<(string, string)>)
    ensures r.Some? ==> |r.value.1| < |s|
    decreases |s|
  {
    if s == [] then None
    else if s[0] == '\"' then Some(([], s[1..]))
    else if s[0] != '\\' then
      match ParseText(s[1..])
      case None => None
      case Some((text, rest)) => Some(([s[0]] + text, rest))
    else if |s| < 2 then None
    else if s[1] == 'u' then
      if |s| < 6 || s[2] != '0' || s[3] != '0' || HexValue(s[4]).None? || HexValue(s[5]).None? then None
      else
        match ParseText(s[6..])
        case None => None
        case Some((text, rest)) => Some(([(HexValue(s[4]).value * 16 + HexValue(s[5]).value) as char] + text, rest))
    else
      var plain :=
        if s[1] == '\"' || s[1] == '\\' || s[1] == '/' then Some(s[1])
        else if s[1] == 'b' then Some(8 as char)
        else if s[1] == 'f' then Some(12 as char)
        else if s[1] == 'n' then Some('\n')
        else if s[1] == 'r' then Some('\r')
        else if s[1] == 't' then Some('\t')
        else None;
      if plain.None? then None
      else
        match ParseText(s[2..])
        case None => None
        case Some((text, rest)) => Some(([plain.value] + text, rest))
  }

  function NumberLength(s: string): (n: nat)
    ensures n <= |s|
  {
    if s == [] || !NumberChar(s[0]) then 0 else 1 + NumberLength(s[1..])
  }

  function ParseValue(s: string): (r: Option<(Json, string)>)
    ensures r.Some? ==> |r.value.1| < |s|
    decreases |s|, 1
  {
    if s == [] then None
    else if "null" <= s then Some((Null, s[4..]))
    else if "true" <= s then Some((Bool(true), s[4..]))
    else if "false" <= s then Some((Bool(false), s[5..]))
    else if s[0] == '\"' then
      match ParseText(s[1..])
      case None => None
      case Some((text, rest)) => Some((Str(text), rest))
    else if s[0] == '[' then
      if |s| > 1 && s[1] == ']' then Some((Arr([]), s[2..]))
      else
        match ParseItems(s[1..])
        case None => None
        case Some((items, rest)) => Some((Arr(items), rest))
    else if s[0] == '{' then
      if |s| > 1 && s[1] == '}' then Some((Obj(map[]), s[2..]))
      else
        match ParseFields(s[1..])
        case None => None
        case Some((fields, rest)) => Some((Obj(fields), rest))
    else if Digit(s[0]) || s[0] == '-' then
      var n := NumberLength(s);
      assert n > 0;
      Some((Number(s[..n]), s[n..]))
    else None
  }

  /** One or more items, up to the closing bracket. */
  function ParseItems(s: string): (r: Option<(seq<Json>, string)>)
    ensures r.Some? ==> |r.value.1| < |s|
    decreases |s|, 2
  {
    match ParseValue(s)
    case None => None
    case Some((item, rest)) =>
      if rest == [] then None
      else if rest[0] == ']' then Some(([item], rest[1..]))
      else if rest[0] != ',' then None
      else
        match ParseItems(rest[1..])
        case None => None
        case Some((items, end)) => Some(([item] + items, end))
  }

  /** One or more fields, up to the closing brace. */
  function ParseFields(s: string): (r: Option<(map<string, Json>, string)>)
    ensures r.Some? ==> |r.value.1| < |s|
    decreases |s|, 2
  {
    if s == [] || s[0] != '\"' then None
    else
      match ParseText(s[1..])
      case None => None
      case Some((key, afterKey)) =>
        if afterKey == [] || afterKey[0] != ':' then None
        else
          match ParseValue(afterKey[1..])
          case None => None
          case Some((value, rest)) =>
            if rest == [] then None
            else if rest[0] == '}' then Some((map[key := value], rest[1..]))
            else if rest[0] != ',' then None
            else
              match ParseFields(rest[1..])
              case None => None
              case Some((fields, end)) => Some((fields[key := value], end))
  }

  // ----- One reading -----

  /** What may follow a value: a separator, or nothing. */
  predicate Delimited(rest: string) {
    rest == [] || rest[0] == ',' || rest[0] == ']' || rest[0] == '}'
  }

  lemma EscapedCharacterIsRead(c: char, more: string)
    ensures ParseText(Escape(c) + more) ==
            match ParseText(more) case None => None case Some((text, rest)) => Some(([c] + text, rest))
  {
    var s := Escape(c) + more;
    if c == '\"' || c == '\\' || c as int == 8 || c as int == 12 || c == '\n' || c == '\r' || c == '\t' {
      assert s[2..] == more;
    } else if c as int < 32 {
      DigitRoundTrip(c as int / 16);
      DigitRoundTrip(c as int % 16);
      assert s[6..] == more;
      assert (c as int / 16) * 16 + c as int % 16 == c as int;
    } else {
      assert s[1..] == more;
    }
  }

  lemma {:induction false} QuotedTextIsRead(s: string, rest: string)
    ensures ParseText(EscapeAll(s) + "\"" + rest) == Some((s, rest))
    decreases |s|
  {
    if s == [] {
      assert EscapeAll(s) + "\"" + rest == "\"" + rest;
    } else {
      var more := EscapeAll(s[1..]) + "\"" + rest;
      assert EscapeAll(s) + "\"" + rest == Escape(s[0]) + more;
      EscapedCharacterIsRead(s[0], more);
      QuotedTextIsRead(s[1..], rest);
      assert s == [s[0]] + s[1..];
    }
  }

  lemma {:induction false} TokenIsRead(token: string, rest: string)
    requires forall i :: 0 <= i < |token| ==> NumberChar(token[i])
    requires Delimited(rest)
    ensures NumberLength(token + rest) == |token|
    decreases |token|
  {
    if token == [] {
      assert token + rest == rest;
    } else {
      assert (token + rest)[1..] == token[1..] + rest;
      TokenIsRead(token[1..], rest);
    }
  }

  /** The first character tells the kinds of value apart. */
  lemma CanonicalStart(v: Json)
    requires WellFormed(v)
    ensures Canonical(v) != []
    ensures Canonical(v)[0] !in {']', '}', ','}
  {
  }

  /** A parser undoes the canonical encoding of every value. */
  lemma {:induction false} CanonicalIsRead(v: Json, rest: string)
    requires WellFormed(v) && Delimited(rest)
    ensures ParseValue(Canonical(v) + rest) == Some((v, rest))
    decreases v
  {
    match v {
      case Arr(items) => ArrayIsRead(v, rest);
      case Obj(fields) => ObjectIsRead(v, rest);
      case Number(token) => NumberIsRead(token, rest);
      case Str(text) => StringIsRead(text, rest);
      case _ => WordIsRead(v, rest);
    }
  }

  lemma WordIsRead(v: Json, rest: string)
    requires v.Null? || v.Bool?
    ensures ParseValue(Canonical(v) + rest) == Some((v, rest))
  {
    var word := Canonical(v);
    var s := word + rest;
    assert s[..|word|] == word && s[|word|..] == rest;
    assert s[0] == word[0];
    assert "null" <= s <==> v.Null?;
    assert "true" <= s <==> v == Bool(true);
    assert "false" <= s <==> v == Bool(false);
  }

  lemma NumberIsRead(token: string, rest: string)
    requires ValidToken(token) && Delimited(rest)
    ensures ParseValue(token + rest) == Some((Number(token), rest))
  {
    var s := token + rest;
    TokenIsRead(token, rest);
    assert s[0] == token[0];
    assert !("null" <= s) && !("true" <= s) && !("false" <= s);
    assert s[..|token|] == token && s[|token|..] == rest;
  }

  lemma NoWordIsQuoted(s: string)
    requires s != [] && s[0] == '\"'
    ensures !("null" <= s) && !("true" <= s) && !("false" <= s)
  {
  }

  lemma StringIsRead(text: string, rest: string)
    ensures ParseValue(Quote(text) + rest) == Some((Str(text), rest))
  {
    var s := Quote(text) + rest;
    NoWordIsQuoted(s);
    assert s[1..] == EscapeAll(text) + "\"" + rest;
    QuotedTextIsRead(text, rest);
  }

  lemma {:induction false} ArrayIsRead(v: Json, rest: string)
    requires v.Arr? && WellFormed(v)
    ensures ParseValue(Canonical(v) + rest) == Some((v, rest))
    decreases v, |v.items| + 1
  {
    if v.items == [] {
      EmptyArrayIsRead(rest);
    } else {
      ItemsAreRead(v, 0, rest);
      CanonicalStart(v.items[0]);
      ArrayText(v);
      BracketedItemsAreRead(BareItems(v, 0), v.items, rest);
    }
  }

  lemma ArrayText(v: Json)
    requires v.Arr? && v.items != []
    ensures Canonical(v) == "[" + BareItems(v, 0) + "]"
    ensures v.items[0..] == v.items
  {
  }

  lemma EmptyArrayIsRead(rest: string)
    ensures ParseValue("[" + "" + "]" + rest) == Some((Arr([]), rest))
  {
    var s := "[" + "" + "]" + rest;
    assert s[0] == '[' && s[1] == ']' && s[2..] == rest;
  }

  lemma BracketedItemsAreRead(body: string, items: seq<Json>, rest: string)
    requires body != [] && body[0] != ']'
    requires ParseItems(body + "]" + rest) == Some((items, rest))
    ensures ParseValue("[" + body + "]" + rest) == Some((Arr(items), rest))
  {
    var s := "[" + body + "]" + rest;
    assert s[0] == '[' && s[1..] == body + "]" + rest;
    assert s[1] == body[0];
  }

  /** The text of the items from `i` on, without the separator before them. */
  ghost function BareItems(v: Json, i: nat): string
    requires v.Arr? && i < |v.items|
  {
    Canonical(v.items[i]) + ItemsFrom(v, i + 1)
  }

  lemma LastItemIsRead(text: string, item: Json, rest: string)
    requires ParseValue(text + ("]" + rest)) == Some((item, "]" + rest))
    ensures ParseItems(text + ("]" + rest)) == Some(([item], rest))
  {
    assert ("]" + rest)[1..] == rest;
  }

  lemma MoreItemsAreRead(text: string, item: Json, more: string, items: seq<Json>, rest: string)
    requires ParseValue(text + ("," + more)) == Some((item, "," + more))
    requires ParseItems(more) == Some((items, rest))
    ensures ParseItems(text + ("," + more)) == Some(([item] + items, rest))
  {
    assert ("," + more)[1..] == more;
  }

  lemma {:induction false} ItemsAreRead(v: Json, i: nat, rest: string)
    requires v.Arr? && WellFormed(v) && i < |v.items|
    ensures ParseItems(BareItems(v, i) + "]" + rest) == Some((v.items[i..], rest))
    decreases v, |v.items| - i
  {
    if i + 1 == |v.items| {
      CanonicalIsRead(v.items[i], "]" + rest);
      LastItemText(v, i, rest);
      LastItemIsRead(Canonical(v.items[i]), v.items[i], rest);
      assert v.items[i..] == [v.items[i]];
    } else {
      CanonicalIsRead(v.items[i], "," + (BareItems(v, i + 1) + "]" + rest));
      ItemsAreRead(v, i + 1, rest);
      SeparatedItemsAreRead(v, i, rest);
    }
  }

  lemma SeparatedItemsAreRead(v: Json, i: nat, rest: string)
    requires v.Arr? && i + 1 < |v.items|
    requires var tail := "," + (BareItems(v, i + 1) + "]" + rest);
             ParseValue(Canonical(v.items[i]) + tail) == Some((v.items[i], tail))
    requires ParseItems(BareItems(v, i + 1) + "]" + rest) == Some((v.items[i + 1..], rest))
    ensures ParseItems(BareItems(v, i) + "]" + rest) == Some((v.items[i..], rest))
  {
    ItemsSeparated(v, i, rest);
    FirstItem(v.items, i);
    ReadAsItems(BareItems(v, i) + "]" + rest, Canonical(v.items[i]), v.items[i], BareItems(v, i + 1) + "]" + rest,
                v.items[i + 1..], v.items[i..], rest);
  }

  lemma FirstItem<T>(items: seq<T>, i: nat)
    requires i < |items|
    ensures items[i..] == [items[i]] + items[i + 1..]
  {
  }

  lemma ReadAsItems(whole: string, text: string, item: Json, more: string, items: seq<Json>, all: seq<Json>, rest: string)
    requires whole == text + ("," + more) && all == [item] + items
    requires ParseValue(text + ("," + more)) == Some((item, "," + more))
    requires ParseItems(more) == Some((items, rest))
    ensures ParseItems(whole) == Some((all, rest))
  {
    MoreItemsAreRead(text, item, more, items, rest);
  }

  lemma LastItemText(v: Json, i: nat, rest: string)
    requires v.Arr? && i + 1 == |v.items|
    ensures BareItems(v, i) + "]" + rest == Canonical(v.items[i]) + ("]" + rest)
  {
    Spread(Canonical(v.items[i]), "", "]" , rest);
  }

  lemma ItemsSeparated(v: Json, i: nat, rest: string)
    requires v.Arr? && i + 1 < |v.items|
    ensures BareItems(v, i) + "]" + rest == Canonical(v.items[i]) + ("," + (BareItems(v, i + 1) + "]" + rest))
  {
    var b, c := Canonical(v.items[i + 1]), ItemsFrom(v, i + 2);
    assert ItemsFrom(v, i + 1) == "," + b + c;
    Spread(",", b, c, "");
    Spread(Canonical(v.items[i]), "," + (b + c), "]", rest);
    Spread(",", b + c, "]", rest);
  }

  /** Concatenation, regrouped the ways the proofs here need. */
  lemma Spread(a: string, b: string, c: string, d: string)
    ensures (a + b) + c + d == a + (b + c + d)
    ensures a + b + c == a + (b + c)
    ensures b == "" ==> (a + b) + c + d == a + (c + d)
  {
  }

  lemma {:induction false} ObjectIsRead(v: Json, rest: string)
    requires v.Obj? && WellFormed(v)
    ensures ParseValue(Canonical(v) + rest) == Some((v, rest))
    decreases v, |SortedKeys(v.fields.Keys)| + 1
  {
    var keys := SortedKeys(v.fields.Keys);
    SortedHasNoDuplicates(keys);
    AllChosen(v, keys);
    if keys == [] {
      assert v.fields == map[];
      EmptyObjectIsRead(rest);
    } else {
      FieldsAreRead(v, keys, 0, rest);
      assert FieldsFrom(v, keys, 0) == BareFields(v, keys, 0);
      BracedFieldsAreRead(BareFields(v, keys, 0), v.fields, rest);
    }
  }

  lemma EmptyObjectIsRead(rest: string)
    ensures ParseValue("{" + "" + "}" + rest) == Some((Obj(map[]), rest))
  {
    var s := "{" + "" + "}" + rest;
    assert s[0] == '{' && s[1] == '}' && s[2..] == rest;
  }

  lemma BracedFieldsAreRead(body: string, fields: map<string, Json>, rest: string)
    requires ParseFields(body + "}" + rest) == Some((fields, rest))
    ensures ParseValue("{" + body + "}" + rest) == Some((Obj(fields), rest))
  {
    var s := "{" + body + "}" + rest;
    assert s[0] == '{' && s[1..] == body + "}" + rest;
    assert s[1] == (body + "}" + rest)[0];
  }

  lemma AllChosen(v: Json, keys: seq<string>)
    requires v.Obj? && forall k :: k in keys <==> k in v.fields
    ensures Chosen(v, keys, 0) == v.fields
  {
    assert keys[0..] == keys;
  }

  lemma SortedHasNoDuplicates(keys: seq<string>)
    requires StrictlySorted(keys)
    ensures NoDuplicates(keys)
  {
    forall i, j | 0 <= i < j < |keys|
      ensures keys[i] != keys[j]
    {
      LessIsIrreflexive(keys[i]);
    }
  }

  ghost function BareFields(v: Json, keys: seq<string>, i: nat): string
    requires v.Obj? && i < |keys| && forall k :: k in keys ==> k in v.fields
  {
    Lead(keys[i], false) + Canonical(v.fields[keys[i]]) + FieldsFrom(v, keys, i + 1)
  }

  /** The fields whose keys are listed from `i` on. */
  ghost function Chosen(v: Json, keys: seq<string>, i: nat): map<string, Json>
    requires v.Obj? && i <= |keys|
  {
    map k | k in keys[i..] && k in v.fields :: v.fields[k]
  }

  /** Reading a field leaves what follows its value to be decided. */
  lemma FieldIsRead(key: string, value: Json, body: string, tail: string)
    requires ParseValue(body) == Some((value, tail)) && tail != []
    ensures ParseFields(Quote(key) + (":" + body)) ==
            if tail[0] == '}' then Some((map[key := value], tail[1..]))
            else if tail[0] != ',' then None
            else
              match ParseFields(tail[1..])
              case None => None
              case Some((fields, end)) => Some((fields[key := value], end))
  {
    FieldKeyIsRead(key, ":" + body);
    assert (":" + body)[1..] == body;
  }

  lemma LastFieldIsRead(key: string, text: string, value: Json, rest: string)
    requires ParseValue(text + ("}" + rest)) == Some((value, "}" + rest))
    ensures ParseFields(Quote(key) + ":" + (text + ("}" + rest))) == Some((map[key := value], rest))
  {
    FieldIsRead(key, value, text + ("}" + rest), "}" + rest);
    assert ("}" + rest)[1..] == rest;
    KeyThenBody(Quote(key), text + ("}" + rest));
  }

  lemma KeyThenBody(key: string, body: string)
    ensures key + ":" + body == key + (":" + body)
  {
  }

  lemma MoreFieldsAreRead(key: string, text: string, value: Json, more: string, fields: map<string, Json>, rest: string)
    requires ParseValue(text + ("," + more)) == Some((value, "," + more))
    requires ParseFields(more) == Some((fields, rest))
    ensures ParseFields(Quote(key) + ":" + (text + ("," + more))) == Some((fields[key := value], rest))
  {
    FieldIsRead(key, value, text + ("," + more), "," + more);
    assert ("," + more)[1..] == more;
    KeyThenBody(Quote(key), text + ("," + more));
  }

  lemma FieldKeyIsRead(key: string, after: string)
    ensures (Quote(key) + after)[0] == '\"' && ParseText((Quote(key) + after)[1..]) == Some((key, after))
  {
    assert (Quote(key) + after)[1..] == EscapeAll(key) + "\"" + after;
    QuotedTextIsRead(key, after);
  }

  lemma {:induction false} FieldsAreRead(v: Json, keys: seq<string>, i: nat, rest: string)
    requires v.Obj? && WellFormed(v) && i < |keys| && NoDuplicates(keys)
    requires forall k :: k in keys ==> k in v.fields
    ensures ParseFields(BareFields(v, keys, i) + "}" + rest) == Some((Chosen(v, keys, i), rest))
    decreases v, |keys| - i
  {
    var key, value := keys[i], v.fields[keys[i]];
    var text := Canonical(value);
    ChosenStep(v, keys, i);
    if i + 1 == |keys| {
      CanonicalIsRead(value, "}" + rest);
      LastFieldIsRead(key, text, value, rest);
      LastFieldText(v, keys, i, rest);
    } else {
      var more := BareFields(v, keys, i + 1) + "}" + rest;
      CanonicalIsRead(value, "," + more);
      FieldsAreRead(v, keys, i + 1, rest);
      MoreFieldsAreRead(key, text, value, more, Chosen(v, keys, i + 1), rest);
      FieldsSeparated(v, keys, i, rest);
    }
  }

  lemma ChosenStep(v: Json, keys: seq<string>, i: nat)
    requires v.Obj? && i < |keys| && forall k :: k in keys ==> k in v.fields
    ensures Chosen(v, keys, i) == Chosen(v, keys, i + 1)[keys[i] := v.fields[keys[i]]]
    ensures Chosen(v, keys, |keys|) == map[]
    ensures i + 1 == |keys| ==> Chosen(v, keys, i) == map[keys[i] := v.fields[keys[i]]]
  {
    assert keys[i..] == [keys[i]] + keys[i + 1..];
  }

  lemma FieldsSeparated(v: Json, keys: seq<string>, i: nat, rest: string)
    requires v.Obj? && i + 1 < |keys| && forall k :: k in keys ==> k in v.fields
    ensures BareFields(v, keys, i) + "}" + rest ==
            Quote(keys[i]) + ":" + (Canonical(v.fields[keys[i]]) + ("," + (BareFields(v, keys, i + 1) + "}" + rest)))
  {
    var a, b := Lead(keys[i], false), Canonical(v.fields[keys[i]]);
    var more := BareFields(v, keys, i + 1);
    LeadSeparates(v, keys, i + 1);
    Spread(a + b, "," + more, "}", rest);
    Spread(",", more, "}", rest);
    Spread(a, b, "," + (more + "}" + rest), "");
    PlainLead(keys[i]);
  }

  lemma PlainLead(key: string)
    ensures Lead(key, false) == Quote(key) + ":"
  {
  }

  lemma LeadSeparates(v: Json, keys: seq<string>, i: nat)
    requires v.Obj? && 0 < i < |keys| && forall k :: k in keys ==> k in v.fields
    ensures FieldsFrom(v, keys, i) == "," + BareFields(v, keys, i)
  {
    var b, c := Canonical(v.fields[keys[i]]), FieldsFrom(v, keys, i + 1);
    assert Lead(keys[i], true) == "," + Lead(keys[i], false);
    Spread(",", Lead(keys[i], false), b, c);
  }

  lemma LastFieldText(v: Json, keys: seq<string>, i: nat, rest: string)
    requires v.Obj? && i + 1 == |keys| && forall k :: k in keys ==> k in v.fields
    ensures BareFields(v, keys, i) + "}" + rest == Quote(keys[i]) + ":" + (Canonical(v.fields[keys[i]]) + ("}" + rest))
  {
    var a, b := Lead(keys[i], false), Canonical(v.fields[keys[i]]);
    Spread(a + b, "", "}", rest);
    Spread(a, b, "}" + rest, "");
    PlainLead(keys[i]);
  }

  /** Equal canonical texts mean equal values. */
  lemma CanonicalIsInjective(v: Json, w: Json)
    requires WellFormed(v) && WellFormed(w) && Canonical(v) == Canonical(w)
    ensures v == w
  {
    CanonicalIsRead(v, []);
    CanonicalIsRead(w, []);
    assert Canonical(v) + [] == Canonical(v) && Canonical(w) + [] == Canonical(w);
  }

  // ----- What an approval is bound to -----

  ghost function CanonicalDigest(identity: Json, sha: Sha): string {
    sha(Canonical(identity))
  }

  /** A built-in tool's action. */
  function ActionIdentity(tool: string, args: Json): Json {
    Obj(map["tool" := Str(tool), "args" := args])
  }

  /** An action of a tool that an MCP server serves (crates/mcp/src/broker.rs). */
  function McpIdentity(server: string, tool: string, args: Json): Json {
    Obj(map["mcp_server" := Str(server), "tool" := Str(tool), "args" := args])
  }

  lemma IdentitiesAreDistinct(server: string, tool: string, args: Json, server': string, tool': string, args': Json)
    ensures ActionIdentity(tool, args) == ActionIdentity(tool', args') ==> tool == tool' && args == args'
    ensures McpIdentity(server, tool, args) == McpIdentity(server', tool', args') ==>
              server == server' && tool == tool' && args == args'
    ensures McpIdentity(server, tool, args) != ActionIdentity(tool', args')
    ensures WellFormed(args) ==> WellFormed(ActionIdentity(tool, args)) && WellFormed(McpIdentity(server, tool, args))
  {
    var a, a' := ActionIdentity(tool, args), ActionIdentity(tool', args');
    assert a.fields["tool"] == Str(tool) && a'.fields["tool"] == Str(tool');
    assert a.fields["args"] == args && a'.fields["args"] == args';
    var m, m' := McpIdentity(server, tool, args), McpIdentity(server', tool', args');
    assert m.fields["mcp_server"] == Str(server) && m'.fields["mcp_server"] == Str(server');
    assert m.fields["tool"] == Str(tool) && m'.fields["tool"] == Str(tool');
    assert m.fields["args"] == args && m'.fields["args"] == args';
    assert "mcp_server" !in a'.fields;
  }

  lemma DigestIsInjective(a: Json, b: Json, sha: Sha)
    requires WellFormed(a) && WellFormed(b) && CollisionFreeOn(sha, {Canonical(a), Canonical(b)})
    ensures CanonicalDigest(a, sha) == CanonicalDigest(b, sha) <==> a == b
  {
    if CanonicalDigest(a, sha) == CanonicalDigest(b, sha) {
      CanonicalIsInjective(a, b);
    }
  }

  /** An approval's digest fits one tool and one argument value only. */
  lemma DigestBindsAction(tool: string, args: Json, tool': string, args': Json, sha: Sha)
    requires WellFormed(args) && WellFormed(args')
    requires CollisionFreeOn(sha, {Canonical(ActionIdentity(tool, args)), Canonical(ActionIdentity(tool', args'))})
    ensures CanonicalDigest(ActionIdentity(tool, args), sha) == CanonicalDigest(ActionIdentity(tool', args'), sha) <==>
            tool == tool' && args == args'
  {
    IdentitiesAreDistinct("", tool, args, "", tool', args');
    IdentitiesAreDistinct("", tool', args', "", tool, args);
    DigestIsInjective(ActionIdentity(tool, args), ActionIdentity(tool', args'), sha);
  }

  /** For a tool served over MCP it fits one server as well. */
  lemma DigestBindsMcpAction(server: string, tool: string, args: Json, server': string, tool': string, args': Json, sha: Sha)
    requires WellFormed(args) && WellFormed(args')
    requires CollisionFreeOn(sha, {Canonical(McpIdentity(server, tool, args)), Canonical(McpIdentity(server', tool', args'))})
    ensures CanonicalDigest(McpIdentity(server, tool, args), sha) == CanonicalDigest(McpIdentity(server', tool', args'), sha) <==>
            server == server' && tool == tool' && args == args'
  {
    IdentitiesAreDistinct(server, tool, args, server', tool', args');
    IdentitiesAreDistinct(server', tool', args', server, tool, args);
    DigestIsInjective(McpIdentity(server, tool, args), McpIdentity(server', tool', args'), sha);
  }

  /** No MCP tool's action is encoded, or digested, like a built-in tool's. */
  lemma McpNeverPassesForBuiltIn(server: string, tool: string, args: Json, tool': string, args': Json, sha: Sha)
    requires WellFormed(args) && WellFormed(args')
    ensures Canonical(McpIdentity(server, tool, args)) != Canonical(ActionIdentity(tool', args'))
    ensures CollisionFreeOn(sha, {Canonical(McpIdentity(server, tool, args)), Canonical(ActionIdentity(tool', args'))}) ==>
              CanonicalDigest(McpIdentity(server, tool, args), sha) != CanonicalDigest(ActionIdentity(tool', args'), sha)
  {
    IdentitiesAreDistinct(server, tool, args, server, tool', args');
    IdentitiesAreDistinct(server, tool', args', server, tool, args);
    if Canonical(McpIdentity(server, tool, args)) == Canonical(ActionIdentity(tool', args')) {
      CanonicalIsInjective(McpIdentity(server, tool, args), ActionIdentity(tool', args'));
    }
  }

  // ----- Known texts -----

  lemma SortedTwo(a: string, b: string)
    requires Less(a, b)
    ensures SortedKeys({a, b}) == [a, b]
  {
    LessIsIrreflexive(a);
    SortedIsUnique(SortedKeys({a, b}), [a, b]);
  }

  lemma SortedOne(a: string)
    ensures SortedKeys({a}) == [a]
  {
    SortedIsUnique(SortedKeys({a}), [a]);
  }

  /** An object of one field. */
  lemma OneField(a: string, v: Json)
    ensures Canonical(Obj(map[a := v])) == "{" + (Quote(a) + ":" + Canonical(v)) + "}"
  {
    SortedOne(a);
    var one := Obj(map[a := v]);
    assert one.fields.Keys == {a};
    LastFieldFrom(one, [a], 0);
    PlainLead(a);
  }

  /** An object of two fields: the one with the lesser key comes first. */
  lemma TwoFields(a: string, v: Json, b: string, w: Json)
    requires Less(a, b)
    ensures Canonical(Obj(map[b := w, a := v])) ==
            "{" + (Quote(a) + ":" + Canonical(v) + ("," + Quote(b) + ":" + Canonical(w))) + "}"
  {
    LessIsIrreflexive(a);
    SortedTwo(a, b);
    var two := Obj(map[b := w, a := v]);
    assert two.fields.Keys == {a, b};
    LastFieldFrom(two, [a, b], 1);
    PlainLead(a);
  }

  lemma LastFieldFrom(o: Json, keys: seq<string>, i: nat)
    requires o.Obj? && i + 1 == |keys| && forall k :: k in keys ==> k in o.fields
    ensures FieldsFrom(o, keys, i) == Lead(keys[i], i > 0) + Canonical(o.fields[keys[i]])
  {
    assert FieldsFrom(o, keys, i + 1) == "";
  }

  /** An array of two items. */
  lemma TwoItems(v: Json, w: Json)
    ensures Canonical(Arr([v, w])) == "[" + (Canonical(v) + ("," + Canonical(w))) + "]"
  {
    LastItemFrom(Arr([v, w]), 1);
    FirstOfTwo(Arr([v, w]));
  }

  lemma LastItemFrom(a: Json, i: nat)
    requires a.Arr? && i + 1 == |a.items|
    ensures ItemsFrom(a, i) == (if i > 0 then "," else "") + Canonical(a.items[i])
  {
    assert ItemsFrom(a, i + 1) == "";
  }

  lemma FirstOfTwo(a: Json)
    requires a.Arr? && |a.items| == 2
    ensures ItemsFrom(a, 0) == Canonical(a.items[0]) + ItemsFrom(a, 1)
  {
    assert "" + Canonical(a.items[0]) == Canonical(a.items[0]);
  }

  /** How a string is quoted: what has a short escape gets it, other control
      characters are spelled in hex, and everything else stands for itself. */
  lemma Escapes(c: char)
    ensures c >= ' ' && c != '\"' && c != '\\' ==> Escape(c) == [c]
    ensures Escape('\"') == "\\\"" && Escape('\\') == "\\\\"
    ensures Escape('\n') == "\\n" && Escape('\r') == "\\r" && Escape('\t') == "\\t"
    ensures Escape(8 as char) == "\\b" && Escape(12 as char) == "\\f"
    ensures Escape(0 as char) == "\\u0000" && Escape(31 as char) == "\\u001f"
  {
  }

  /** What is hashed for a call of a tool: its name and its arguments. */
  lemma ActionIsHashedAs(tool: string, args: Json)
    ensures Canonical(ActionIdentity(tool, args)) ==
            "{" + (Quote("args") + ":" + Canonical(args) + ("," + Quote("tool") + ":" + Quote(tool))) + "}"
  {
    TwoFields("args", args, "tool", Str(tool));
    assert ActionIdentity(tool, args) == Obj(map["tool" := Str(tool), "args" := args]);
  }
}
