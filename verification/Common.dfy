/** Datatypes and sequence facts that several components share. */
module Common {

  datatype Option<+T> = None | Some(value: T)

  datatype Result<+T, +E> = Ok(value: T) | Err(error: E)

  /** A byte string. A character stands for one byte of a file, or for one
      character of a text that is hashed. */
  type Bytes = seq<char>

  /** SHA-256 in hex, seen from outside: any function from bytes to text. What a
      theorem needs of it (no collision among certain inputs, no all-zero
      result) is an explicit hypothesis of that theorem. */
  type Sha = Bytes -> string

  /** Sixty-four zeros: no content, no previous event. */
  const NULL_HASH: string := Zeros(64)

  function Zeros(n: nat): (s: string)
    ensures |s| == n
  {
    if n == 0 then [] else ['0'] + Zeros(n - 1)
  }

  ghost predicate NeverNull(sha: Sha) {
    forall b :: sha(b) != NULL_HASH
  }

  /** `hash` tells every two members of `inputs` apart. */
  ghost predicate CollisionFreeOn<T(!new)>(hash: Bytes -> T, inputs: set<Bytes>) {
    forall x, y :: x in inputs && y in inputs && hash(x) == hash(y) ==> x == y
  }

  /** A hexadecimal digit, lower case. */
  function HexDigit(n: nat): char
    requires n < 16
  {
    if n < 10 then ('0' as int + n) as char else ('a' as int + n - 10) as char
  }

  function HexValue(c: char): Option<nat> {
    if '0' <= c <= '9' then Some(c as int - '0' as int)
    else if 'a' <= c <= 'f' then Some(c as int - 'a' as int + 10)
    else if 'A' <= c <= 'F' then Some(c as int - 'A' as int + 10)
    else None
  }

  lemma DigitRoundTrip(n: nat)
    requires n < 16
    ensures HexValue(HexDigit(n)) == Some(n)
  {
  }

  ghost predicate NoDuplicates<T(!new)>(s: seq<T>) {
    forall i, j :: 0 <= i < j < |s| ==> s[i] != s[j]
  }

  ghost function Elements<T(!new)>(s: seq<T>): set<T> {
    set x | x in s
  }

  ghost predicate Ascending(numbers: seq<nat>) {
    forall i, j :: 0 <= i < j < |numbers| ==> numbers[i] < numbers[j]
  }

  lemma AscendingGrows(front: seq<nat>, last: nat)
    requires Ascending(front) && (front != [] ==> front[|front| - 1] < last)
    ensures Ascending(front + [last])
  {
  }

  lemma Regroup<T>(a: seq<T>, b: seq<T>, c: seq<T>)
    ensures a + b + c == a + (b + c)
    ensures a + [] == a
  {
  }

  lemma SplitLast<T>(s: seq<T>)
    requires s != []
    ensures s == s[..|s| - 1] + [s[|s| - 1]]
  {
  }

  lemma NoDuplicatesConcat<T(!new)>(a: seq<T>, b: seq<T>)
    requires NoDuplicates(a) && NoDuplicates(b)
    requires forall x :: x in a ==> x !in b
    ensures NoDuplicates(a + b)
  {
    forall i, j | 0 <= i < j < |a + b|
      ensures (a + b)[i] != (a + b)[j]
    {
      if i < |a| <= j {
        assert a[i] in a && b[j - |a|] in b;
      }
    }
  }

  lemma NoDuplicatesCardinality<T(!new)>(s: seq<T>)
    requires NoDuplicates(s)
    ensures |Elements(s)| == |s|
  {
    if s == [] {
      assert Elements(s) == {};
    } else {
      var front := s[..|s| - 1];
      NoDuplicatesCardinality(front);
      assert s[|s| - 1] !in Elements(front);
      assert Elements(s) == Elements(front) + {s[|s| - 1]};
    }
  }

  /** More entries than distinct values: some value repeats. */
  lemma Pigeonhole<T(!new)>(s: seq<T>, values: set<T>)
    requires forall x :: x in s ==> x in values
    requires |s| > |values|
    ensures exists i, j :: 0 <= i < j < |s| && s[i] == s[j]
  {
    if NoDuplicates(s) {
      NoDuplicatesCardinality(s);
      SubsetCardinality(Elements(s), values);
    }
  }

  lemma SubsetCardinality<T>(a: set<T>, b: set<T>)
    requires a <= b
    ensures |a| <= |b|
    ensures |a| == |b| ==> a == b
  {
    assert b == a + (b - a);
  }
}
