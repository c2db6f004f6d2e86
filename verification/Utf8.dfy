/** Which byte strings are text, and how bytes that are not are shown: the
    well-formed sequences of table 3-7 of the Unicode Standard, and their
    replacement one maximal part at a time. A file's name is any bytes on Unix;
    a recorded path is text, and stands here as its UTF-8 bytes. */
module Utf8 {
  import opened Common

  /** U+FFFD, the replacement character. */
  const REPLACEMENT: Bytes := [0xEF as char, 0xBF as char, 0xBD as char]

  /** How many bytes a character takes that starts with `lead`; 0 when none does. */
  function Length(lead: char): (n: nat)
    ensures n <= 4
  {
    if lead < 0x80 as char then 1
    else if 0xC2 as char <= lead <= 0xDF as char then 2
    else if 0xE0 as char <= lead <= 0xEF as char then 3
    else if 0xF0 as char <= lead <= 0xF4 as char then 4
    else 0
  }

  predicate Trails(b: char) {
    0x80 as char <= b <= 0xBF as char
  }

  /** The second byte is narrowed where the encoding would be overlong, a
      surrogate or out of range. */
  predicate MayFollow(lead: char, b: char) {
    && Trails(b)
    && (lead == 0xE0 as char ==> b >= 0xA0 as char)
    && (lead == 0xED as char ==> b <= 0x9F as char)
    && (lead == 0xF0 as char ==> b >= 0x90 as char)
    && (lead == 0xF4 as char ==> b <= 0x8F as char)
  }

  /** The bytes after the first that go on with the character `s` starts with. */
  predicate GoesOn(s: Bytes, k: nat)
    requires 0 < k < |s|
  {
    if k == 1 then MayFollow(s[0], s[1]) else Trails(s[k])
  }

  /** How many bytes from the first on belong together: a whole character, or
      the longest part of one. */
  function Part(s: Bytes): (n: nat)
    requires s != []
    ensures 1 <= n <= |s|
    ensures Length(s[0]) > 0 ==> n <= Length(s[0])
    ensures forall k :: 0 < k < n ==> GoesOn(s, k)
    ensures n < Length(s[0]) && n < |s| ==> !GoesOn(s, n)
  {
    var n := Length(s[0]);
    if n < 2 || |s| < 2 || !GoesOn(s, 1) then 1
    else if n < 3 || |s| < 3 || !GoesOn(s, 2) then 2
    else if n < 4 || |s| < 4 || !GoesOn(s, 3) then 3
    else 4
  }

  predicate StartsWithCharacter(s: Bytes) {
    s != [] && Part(s) == Length(s[0])
  }

  predicate Ascii(s: Bytes) {
    forall i :: 0 <= i < |s| ==> s[i] < 0x80 as char
  }

  /** The bytes are the encoding of some text. */
  predicate IsText(s: Bytes) {
    if s == [] then true else StartsWithCharacter(s) && IsText(s[Part(s)..])
  }

  /** The text that bytes are shown as. */
  function Lossy(s: Bytes): (r: Bytes)
    ensures IsText(s) ==> r == s
  {
    if s == [] then []
    else if StartsWithCharacter(s) then s[..Part(s)] + Lossy(s[Part(s)..])
    else REPLACEMENT + Lossy(s[Part(s)..])
  }

  /** Whether a character stands at the front is decided by its own bytes. */
  lemma CharacterThenMore(s: Bytes, more: Bytes)
    requires StartsWithCharacter(s)
    ensures StartsWithCharacter(s + more) && Part(s + more) == Part(s)
  {
    assert forall k :: 0 < k < Part(s) ==> (GoesOn(s + more, k) <==> GoesOn(s, k));
  }

  lemma {:induction false} TextThenText(a: Bytes, b: Bytes)
    requires IsText(a) && IsText(b)
    ensures IsText(a + b)
    decreases |a|
  {
    if a == [] {
      assert a + b == b;
    } else {
      CharacterThenMore(a, b);
      TextThenText(a[Part(a)..], b);
      assert (a + b)[Part(a)..] == a[Part(a)..] + b;
    }
  }

  lemma CharacterIsText(s: Bytes)
    requires StartsWithCharacter(s)
    ensures IsText(s[..Part(s)])
  {
    var own := s[..Part(s)];
    assert forall k :: 0 < k < Part(s) ==> (GoesOn(own, k) <==> GoesOn(s, k));
    assert Part(own) == Part(s);
    assert own[Part(own)..] == [];
  }

  lemma ReplacementIsText()
    ensures IsText(REPLACEMENT)
  {
    assert Part(REPLACEMENT) == 3 && REPLACEMENT[3..] == [];
  }

  /** What bytes are shown as is text, so bytes are shown as themselves exactly
      when they are text. */
  lemma {:induction false} ShownAsItselfExactlyWhen(s: Bytes)
    ensures IsText(Lossy(s))
    ensures Lossy(s) == s <==> IsText(s)
  {
    if s == [] {
    } else {
      var rest := Lossy(s[Part(s)..]);
      ShownAsItselfExactlyWhen(s[Part(s)..]);
      if StartsWithCharacter(s) {
        CharacterIsText(s);
        TextThenText(s[..Part(s)], rest);
      } else {
        ReplacementIsText();
        TextThenText(REPLACEMENT, rest);
      }
    }
  }

  /** Bytes shown without a replacement are shown as themselves. */
  lemma {:induction false} ShownInAscii(s: Bytes)
    requires Ascii(Lossy(s))
    ensures Lossy(s) == s
  {
    if s == [] {
    } else {
      var own, rest := s[..Part(s)], Lossy(s[Part(s)..]);
      if StartsWithCharacter(s) {
        AsciiRest(own, rest);
        ShownInAscii(s[Part(s)..]);
      } else {
        NotShownInAscii(rest);
      }
    }
  }

  lemma AsciiRest(own: Bytes, rest: Bytes)
    requires Ascii(own + rest)
    ensures Ascii(rest)
  {
    assert forall i :: 0 <= i < |rest| ==> rest[i] == (own + rest)[|own| + i];
  }

  lemma NotShownInAscii(rest: Bytes)
    ensures !Ascii(REPLACEMENT + rest)
  {
    assert (REPLACEMENT + rest)[0] == 0xEF as char;
  }

  lemma {:induction false} AsciiIsText(s: Bytes)
    requires Ascii(s)
    ensures IsText(s)
  {
    if s == [] {
    } else {
      assert Part(s) == 1;
      AsciiIsText(s[1..]);
    }
  }

  /** Text can be cut before and after a byte that stands for itself. */
  lemma {:induction false} TextAround(a: Bytes, c: char, b: Bytes)
    requires c < 0x80 as char
    ensures IsText(a + [c] + b) <==> IsText(a) && IsText(b)
    decreases |a|
  {
    var s := a + [c] + b;
    assert s[|a|] == c && !Trails(c);
    assert forall k :: 0 < k < |a| ==> (GoesOn(s, k) <==> GoesOn(a, k));
    if a == [] {
      assert s == [c] + b;
      assert Part(s) == 1 && s[1..] == b;
    } else if StartsWithCharacter(a) {
      var more := [c] + b;
      Regroup(a, [c], b);
      CharacterThenMore(a, more);
      assert s[Part(a)..] == a[Part(a)..] + more;
      Regroup(a[Part(a)..], [c], b);
      TextAround(a[Part(a)..], c, b);
    }
  }

  /** Alike but for bytes that stand for themselves. */
  predicate Alike(s: Bytes, t: Bytes) {
    && |s| == |t|
    && forall i :: 0 <= i < |s| ==> s[i] == t[i] || (s[i] < 0x80 as char && t[i] < 0x80 as char)
  }

  lemma AlikeGoOn(s: Bytes, t: Bytes, k: nat)
    requires Alike(s, t) && 0 < k < |s| && Length(s[0]) > 1
    ensures GoesOn(s, k) <==> GoesOn(t, k)
  {
    assert s[0] == t[0];
    assert Trails(s[k]) <==> Trails(t[k]);
  }

  lemma AlikeStart(s: Bytes, t: Bytes)
    requires Alike(s, t) && s != []
    ensures Part(s) == Part(t) && (StartsWithCharacter(s) <==> StartsWithCharacter(t))
  {
    if s[0] != t[0] {
      assert s[0] < 0x80 as char && t[0] < 0x80 as char;
    }
    if Length(s[0]) > 1 {
      forall k | 0 < k < |s|
        ensures GoesOn(s, k) <==> GoesOn(t, k)
      {
        AlikeGoOn(s, t, k);
      }
    }
  }

  /** Putting one byte that stands for itself for another changes nothing. */
  lemma {:induction false} AlikeIsText(s: Bytes, t: Bytes)
    requires Alike(s, t)
    ensures IsText(s) <==> IsText(t)
  {
    if s == [] {
    } else {
      AlikeStart(s, t);
      AlikeIsText(s[Part(s)..], t[Part(s)..]);
    }
  }

  // ----- Text as the encoding of characters -----

  /** The UTF-8 bytes of one character. */
  function Encode(c: char): (bytes: Bytes)
    ensures 1 <= |bytes| <= 4
  {
    var n := c as int;
    if n < 0x80 then [c]
    else if n < 0x800 then [(0xC0 + n / 64) as char, (0x80 + n % 64) as char]
    else if n < 0x10000 then [(0xE0 + n / 4096) as char, (0x80 + n / 64 % 64) as char, (0x80 + n % 64) as char]
    else [(0xF0 + n / 262144) as char, (0x80 + n / 4096 % 64) as char, (0x80 + n / 64 % 64) as char, (0x80 + n % 64) as char]
  }

  function EncodeAll(text: string): Bytes {
    if text == [] then [] else Encode(text[0]) + EncodeAll(text[1..])
  }

  lemma EncodedStarts(c: char)
    ensures StartsWithCharacter(Encode(c)) && Part(Encode(c)) == |Encode(c)|
  {
    var n, bytes := c as int, Encode(c);
    if n < 0x80 {
    } else if n < 0x800 {
      assert 2 <= n / 64 < 32;
    } else if n < 0x10000 {
      ThreeBytes(n);
      assert GoesOn(bytes, 1) && GoesOn(bytes, 2);
    } else {
      FourBytes(n);
      assert GoesOn(bytes, 1) && GoesOn(bytes, 2) && GoesOn(bytes, 3);
    }
  }

  lemma ThreeBytes(n: int)
    requires 0x800 <= n < 0x10000
    ensures 0 <= n / 4096 < 16 && 0 <= n / 64 % 64 < 64 && 0 <= n % 64 < 64
    ensures n == n / 4096 * 4096 + n / 64 % 64 * 64 + n % 64
    ensures n / 4096 == 0 ==> n / 64 % 64 >= 32
    ensures n < 0xD800 && n / 4096 == 13 ==> n / 64 % 64 < 32
    ensures n >= 0xE000 ==> n / 4096 != 13
  {
    assert n / 64 / 64 == n / 4096;
  }

  lemma FourBytes(n: int)
    requires 0x10000 <= n <= 0x10FFFF
    ensures 0 <= n / 262144 <= 4 && 0 <= n / 4096 % 64 < 64 && 0 <= n / 64 % 64 < 64 && 0 <= n % 64 < 64
    ensures n == n / 262144 * 262144 + n / 4096 % 64 * 4096 + n / 64 % 64 * 64 + n % 64
    ensures n / 262144 == 0 ==> n / 4096 % 64 >= 16
    ensures n / 262144 == 4 ==> n / 4096 % 64 < 16
  {
    assert n / 4096 / 64 == n / 262144 && n / 64 / 64 == n / 4096;
  }

  /** The first character's number. */
  function Decoded(s: Bytes): int
    requires StartsWithCharacter(s)
  {
    var b := s[0] as int;
    match Part(s)
    case 1 => b
    case 2 => (b - 0xC0) * 64 + (s[1] as int - 0x80)
    case 3 => (b - 0xE0) * 4096 + (s[1] as int - 0x80) * 64 + (s[2] as int - 0x80)
    case _ => (b - 0xF0) * 262144 + (s[1] as int - 0x80) * 4096 + (s[2] as int - 0x80) * 64 + (s[3] as int - 0x80)
  }

  lemma DecodedIsCharacter(s: Bytes)
    requires StartsWithCharacter(s)
    ensures 0 <= Decoded(s) < 0xD800 || 0xE000 <= Decoded(s) < 0x110000
    ensures match Part(s)
            case 1 => Decoded(s) < 0x80
            case 2 => 0x80 <= Decoded(s) < 0x800
            case 3 => 0x800 <= Decoded(s) < 0x10000
            case _ => 0x10000 <= Decoded(s)
  {
    assert Part(s) > 1 ==> GoesOn(s, 1);
    assert Part(s) > 2 ==> GoesOn(s, 2);
    assert Part(s) > 3 ==> GoesOn(s, 3);
  }

  lemma DecodedDigits(a: int, b: int, c: int, d: int)
    requires 0 <= a && 0 <= b < 64 && 0 <= c < 64 && 0 <= d < 64
    ensures (a * 64 + d) / 64 == a && (a * 64 + d) % 64 == d
    ensures var n := a * 4096 + c * 64 + d;
            n / 4096 == a && n / 64 % 64 == c && n % 64 == d
    ensures var n := a * 262144 + b * 4096 + c * 64 + d;
            n / 262144 == a && n / 4096 % 64 == b && n / 64 % 64 == c && n % 64 == d
  {
    var m := a * 4096 + c * 64 + d;
    assert m == (a * 64 + c) * 64 + d && m / 64 == a * 64 + c;
    var n := a * 262144 + b * 4096 + c * 64 + d;
    assert n == ((a * 64 + b) * 64 + c) * 64 + d && n / 64 == (a * 64 + b) * 64 + c && n / 4096 == a * 64 + b;
  }

  lemma FirstIsEncoded(s: Bytes)
    requires StartsWithCharacter(s)
    ensures 0 <= Decoded(s) < 0xD800 || 0xE000 <= Decoded(s) < 0x110000
    ensures Encode(Decoded(s) as char) == s[..Part(s)]
  {
    DecodedIsCharacter(s);
    assert Part(s) > 1 ==> GoesOn(s, 1);
    assert Part(s) > 2 ==> GoesOn(s, 2);
    assert Part(s) > 3 ==> GoesOn(s, 3);
    match Part(s)
    case 1 =>
    case 2 => DecodedDigits(s[0] as int - 0xC0, 0, 0, s[1] as int - 0x80);
    case 3 => DecodedDigits(s[0] as int - 0xE0, 0, s[1] as int - 0x80, s[2] as int - 0x80);
    case _ => DecodedDigits(s[0] as int - 0xF0, s[1] as int - 0x80, s[2] as int - 0x80, s[3] as int - 0x80);
  }

  lemma {:induction false} EncodingIsText(text: string)
    ensures IsText(EncodeAll(text))
  {
    if text == [] {
    } else {
      var bytes := Encode(text[0]);
      EncodedStarts(text[0]);
      EncodingIsText(text[1..]);
      CharacterIsText(bytes);
      assert bytes[..Part(bytes)] == bytes;
      TextThenText(bytes, EncodeAll(text[1..]));
    }
  }

  lemma FirstCharacter(s: Bytes) returns (c: char)
    requires StartsWithCharacter(s)
    ensures s == Encode(c) + s[Part(s)..]
  {
    FirstIsEncoded(s);
    c := Decoded(s) as char;
  }

  lemma OneMoreEncoded(c: char, text: string)
    ensures EncodeAll([c] + text) == Encode(c) + EncodeAll(text)
  {
    assert ([c] + text)[1..] == text;
  }

  lemma {:induction false} TextDecodes(s: Bytes) returns (text: string)
    requires IsText(s)
    ensures EncodeAll(text) == s
  {
    if s == [] {
      text := [];
    } else {
      var c := FirstCharacter(s);
      var rest := TextDecodes(s[Part(s)..]);
      OneMoreEncoded(c, rest);
      text := [c] + rest;
    }
  }

  /** Bytes are text exactly when they are the encoding of some characters. */
  lemma TextExactlyWhenEncoding(s: Bytes)
    ensures IsText(s) <==> exists text :: EncodeAll(text) == s
  {
    if IsText(s) {
      var text := TextDecodes(s);
    }
    if text :| EncodeAll(text) == s {
      EncodingIsText(text);
    }
  }

  /** The replacement is the encoding of U+FFFD. The start of a character cut
      short is replaced once, and two bytes that start nothing twice. */
  lemma Replacements(c: char)
    requires c < 0x80 as char
    ensures REPLACEMENT == Encode(0xFFFD as char)
    ensures Lossy([0xE2 as char, 0x82 as char, c]) == REPLACEMENT + [c]
    ensures Lossy([0xFF as char, 0xFF as char]) == REPLACEMENT + REPLACEMENT
  {
    var cut, none := [0xE2 as char, 0x82 as char, c], [0xFF as char, 0xFF as char];
    assert GoesOn(cut, 1) && !GoesOn(cut, 2) && Part(cut) == 2 && cut[2..] == [c];
    AsciiIsText([c]);
    assert Part(none) == 1 && none[1..] == [0xFF as char];
    assert Part(none[1..]) == 1 && none[1..][1..] == [] && REPLACEMENT + Lossy([]) == REPLACEMENT;
  }
}
