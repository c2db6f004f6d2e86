/** The Merkle root over event hashes (crates/receipts/src/lib.rs) and the chain
    of effect hashes it is taken of (crates/app-server/src/journal.rs). */
module Merkle {
  import opened Common

  /** SHA-256 as bytes, thirty-two of them. */
  type RawSha = Bytes -> Bytes

  ghost predicate DigestBytes(raw: RawSha) {
    forall x :: |raw(x)| == 32 && AreBytes(raw(x))
  }

  predicate AreBytes(s: Bytes) {
    forall i :: 0 <= i < |s| ==> s[i] as int < 256
  }

  // ----- Hex -----

  function HexEncode(b: Bytes): (s: string)
    requires AreBytes(b)
    ensures |s| == 2 * |b|
  {
    if b == [] then []
    else [HexDigit(b[0] as int / 16), HexDigit(b[0] as int % 16)] + HexEncode(b[1..])
  }

  function HexDecode(s: string): (b: Option<Bytes>)
    ensures b.Some? ==> AreBytes(b.value)
  {
    if s == [] then Some([])
    else if |s| == 1 || HexValue(s[0]).None? || HexValue(s[1]).None? then None
    else
      match HexDecode(s[2..])
      case None => None
      case Some(rest) => Some([(HexValue(s[0]).value * 16 + HexValue(s[1]).value) as char] + rest)
  }

  lemma ByteFromDigits(n: nat)
    requires n < 256
    ensures n / 16 < 16 && n / 16 * 16 + n % 16 == n
  {
  }

  /** Two digits and what follows them decode to one byte and what follows it. */
  lemma PairIsDecoded(hi: nat, lo: nat, s: string, rest: Bytes)
    requires hi < 16 && lo < 16 && HexDecode(s) == Some(rest)
    ensures HexDecode([HexDigit(hi), HexDigit(lo)] + s) == Some([(hi * 16 + lo) as char] + rest)
  {
    DigitRoundTrip(hi);
    DigitRoundTrip(lo);
    assert ([HexDigit(hi), HexDigit(lo)] + s)[2..] == s;
  }

  lemma ByteIsDecoded(c: char, s: string, rest: Bytes)
    requires c as int < 256 && HexDecode(s) == Some(rest)
    ensures HexDecode([HexDigit(c as int / 16), HexDigit(c as int % 16)] + s) == Some([c] + rest)
  {
    ByteFromDigits(c as int);
    PairIsDecoded(c as int / 16, c as int % 16, s, rest);
  }

  lemma {:induction false} HexRoundTrip(b: Bytes)
    requires AreBytes(b)
    ensures HexDecode(HexEncode(b)) == Some(b)
    decreases |b|
  {
    if b == [] {
    } else {
      HexRoundTrip(b[1..]);
      ByteIsDecoded(b[0], HexEncode(b[1..]), b[1..]);
      assert b == [b[0]] + b[1..];
    }
  }

  // ----- The tree -----

  function ZeroBytes(n: nat): (zeros: Bytes)
    ensures |zeros| == n && AreBytes(zeros)
  {
    if n == 0 then [] else [0 as char] + ZeroBytes(n - 1)
  }

  /** A leaf: the bytes an event hash spells, or zeros when it spells none. */
  function Leaf(hash: string): Bytes {
    match HexDecode(hash)
    case Some(bytes) => bytes
    case None => ZeroBytes(32)
  }

  function Leaves(hashes: seq<string>): seq<Bytes> {
    seq(|hashes|, i requires 0 <= i < |hashes| => Leaf(hashes[i]))
  }

  /** Neighbours hashed together; an odd one out is hashed with itself. */
  function NextLevel(level: seq<Bytes>, raw: RawSha): (next: seq<Bytes>)
    ensures |next| == (|level| + 1) / 2
  {
    seq((|level| + 1) / 2, i requires 0 <= i < (|level| + 1) / 2 => raw(Pair(level, i)))
  }

  /** What the `i`th node of the next level hashes. */
  function Pair(level: seq<Bytes>, i: nat): Bytes
    requires 2 * i < |level|
  {
    level[2 * i] + if 2 * i + 1 < |level| then level[2 * i + 1] else level[2 * i]
  }

  function Root(level: seq<Bytes>, raw: RawSha): Bytes
    requires level != []
    decreases |level|
  {
    if |level| == 1 then level[0] else Root(NextLevel(level, raw), raw)
  }

  predicate LevelOfBytes(level: seq<Bytes>) {
    forall i :: 0 <= i < |level| ==> AreBytes(level[i])
  }

  lemma LeavesAreBytes(hashes: seq<string>)
    ensures LevelOfBytes(Leaves(hashes))
  {
  }

  lemma NextLevelIsBytes(level: seq<Bytes>, raw: RawSha)
    requires forall x :: AreBytes(raw(x))
    ensures LevelOfBytes(NextLevel(level, raw))
  {
    forall i | 0 <= i < (|level| + 1) / 2
      ensures AreBytes(NextLevel(level, raw)[i])
    {
      assert NextLevel(level, raw)[i] == raw(Pair(level, i));
    }
  }

  lemma {:induction false} RootIsBytes(level: seq<Bytes>, raw: RawSha)
    requires level != [] && LevelOfBytes(level)
    requires forall x :: AreBytes(raw(x))
    ensures AreBytes(Root(level, raw))
    decreases |level|
  {
    if |level| <= 1 {
    } else {
      NextLevelIsBytes(level, raw);
      RootIsBytes(NextLevel(level, raw), raw);
    }
  }

  /** The root of a list of event hashes, in hex. */
  function RootText(eventHashes: seq<string>, raw: RawSha): string
    requires forall x :: AreBytes(raw(x))
  {
    if eventHashes == [] then NULL_HASH
    else
      LeavesAreBytes(eventHashes);
      RootIsBytes(Leaves(eventHashes), raw);
      HexEncode(Root(Leaves(eventHashes), raw))
  }

  lemma RootTextIsRoot(eventHashes: seq<string>, raw: RawSha)
    requires forall x :: AreBytes(raw(x))
    ensures if eventHashes == [] then RootText(eventHashes, raw) == NULL_HASH
            else HexDecode(RootText(eventHashes, raw)) == Some(Root(Leaves(eventHashes), raw))
  {
    if eventHashes != [] {
      LeavesAreBytes(eventHashes);
      RootIsBytes(Leaves(eventHashes), raw);
      HexRoundTrip(Root(Leaves(eventHashes), raw));
    }
  }

  lemma OneMorePair(level: seq<Bytes>, done: seq<Bytes>, hashed: Bytes, raw: RawSha)
    requires level != [] && 2 * |done| < |level|
    requires |done| <= |NextLevel(level, raw)| && done == NextLevel(level, raw)[..|done|]
    requires hashed == Pair(level, |done|)
    ensures |done| < |NextLevel(level, raw)|
    ensures done + [raw(hashed)] == NextLevel(level, raw)[..|done| + 1]
  {
  }

  method ComputeEventMerkleRoot(eventHashes: seq<string>, raw: RawSha) returns (root: string)
    requires forall x :: AreBytes(raw(x))
    ensures root == RootText(eventHashes, raw)
    ensures if eventHashes == [] then root == NULL_HASH else HexDecode(root) == Some(Root(Leaves(eventHashes), raw))
  {
    if eventHashes == [] {
      return NULL_HASH;
    }
    RootTextIsRoot(eventHashes, raw);
    LeavesAreBytes(eventHashes);
    var currentLevel := Leaves(eventHashes);
    while |currentLevel| > 1
      invariant currentLevel != [] && LevelOfBytes(currentLevel)
      invariant Root(currentLevel, raw) == Root(Leaves(eventHashes), raw)
      decreases |currentLevel|
    {
      var nextLevel: seq<Bytes> := [];
      var at := 0;
      while at < |currentLevel|
        invariant at == 2 * |nextLevel| || (at == |currentLevel| + 1 && at == 2 * |nextLevel|)
        invariant |nextLevel| <= (|currentLevel| + 1) / 2
        invariant nextLevel == NextLevel(currentLevel, raw)[..|nextLevel|]
        decreases |currentLevel| - at
      {
        var hashed := if at + 1 < |currentLevel| then currentLevel[at] + currentLevel[at + 1]
                      else currentLevel[at] + currentLevel[at];
        OneMorePair(currentLevel, nextLevel, hashed, raw);
        nextLevel := nextLevel + [raw(hashed)];
        at := at + 2;
      }
      assert nextLevel == NextLevel(currentLevel, raw);
      NextLevelIsBytes(currentLevel, raw);
      currentLevel := nextLevel;
    }
    return HexEncode(currentLevel[0]);
  }

  // ----- The same tree from the top -----

  function Pow2(k: nat): nat {
    if k == 0 then 1 else 2 * Pow2(k - 1)
  }

  lemma Pow2Positive(k: nat)
    ensures Pow2(k) > 0
  {
  }

  /** The root of a tree of height `k`, from its two halves: a missing right half
      is replaced by the left one. */
  function TreeRoot(leaves: seq<Bytes>, k: nat, raw: RawSha): Bytes
    requires 0 < |leaves| <= Pow2(k)
    decreases k
  {
    if k == 0 then leaves[0]
    else if |leaves| <= Pow2(k - 1) then
      var half := TreeRoot(leaves, k - 1, raw);
      raw(half + half)
    else
      Pow2Positive(k - 1);
      raw(TreeRoot(leaves[..Pow2(k - 1)], k - 1, raw) + TreeRoot(leaves[Pow2(k - 1)..], k - 1, raw))
  }

  /** An even cut of a level is a cut of the next one. */
  lemma LevelSplits(level: seq<Bytes>, m: nat, raw: RawSha)
    requires 2 * m < |level|
    ensures NextLevel(level[..2 * m], raw) == NextLevel(level, raw)[..m]
    ensures NextLevel(level[2 * m..], raw) == NextLevel(level, raw)[m..]
  {
    var left, right := level[..2 * m], level[2 * m..];
    forall i | 0 <= i < m
      ensures NextLevel(left, raw)[i] == NextLevel(level, raw)[i]
    {
      assert Pair(level, i) == Pair(left, i);
    }
    forall i | 0 <= i < |NextLevel(right, raw)|
      ensures NextLevel(right, raw)[i] == NextLevel(level, raw)[m + i]
    {
      assert Pair(level, m + i) == Pair(right, i);
    }
  }

  lemma LowestLevel(level: seq<Bytes>, raw: RawSha)
    requires 0 < |level| <= 2
    ensures TreeRoot(level, 1, raw) == NextLevel(level, raw)[0]
  {
    assert Pow2(1) == 2 && Pow2(0) == 1;
    assert NextLevel(level, raw)[0] == raw(Pair(level, 0));
    if |level| == 1 {
      assert TreeRoot(level, 0, raw) == level[0];
    } else {
      assert level[..1] == [level[0]] && level[1..] == [level[1]];
    }
  }

  lemma TreeSplits(leaves: seq<Bytes>, k: nat, raw: RawSha)
    requires 0 < Pow2(k) < |leaves| <= Pow2(k + 1)
    ensures TreeRoot(leaves, k + 1, raw)
         == raw(TreeRoot(leaves[..Pow2(k)], k, raw) + TreeRoot(leaves[Pow2(k)..], k, raw))
  {
  }

  lemma NextLevelFits(level: seq<Bytes>, k: nat, raw: RawSha)
    requires 0 < |level| <= Pow2(k + 1)
    ensures 0 < |NextLevel(level, raw)| <= Pow2(k)
  {
  }

  /** One level of the loop takes one level off the tree's height. */
  lemma {:induction false} LevelTakesHeightOff(level: seq<Bytes>, k: nat, raw: RawSha)
    requires 0 < |level| <= Pow2(k + 1)
    ensures 0 < |NextLevel(level, raw)| <= Pow2(k)
    ensures TreeRoot(level, k + 1, raw) == TreeRoot(NextLevel(level, raw), k, raw)
    decreases k
  {
    NextLevelFits(level, k, raw);
    if k == 0 {
      assert Pow2(1) == 2 && Pow2(0) == 1;
      LowestLevel(level, raw);
    } else {
      Pow2Positive(k - 1);
      if |level| <= Pow2(k) {
        LevelTakesHeightOff(level, k - 1, raw);
      } else {
        var m := Pow2(k - 1);
        var left, right := level[..2 * m], level[2 * m..];
        LevelTakesHeightOff(left, k - 1, raw);
        LevelTakesHeightOff(right, k - 1, raw);
        HalvesJoin(level, k, m, raw);
      }
    }
  }

  lemma HalvesJoin(level: seq<Bytes>, k: nat, m: nat, raw: RawSha)
    requires k > 0 && m == Pow2(k - 1) > 0 && 2 * m < |level| <= 4 * m
    requires TreeRoot(level[..2 * m], k, raw) == TreeRoot(NextLevel(level[..2 * m], raw), k - 1, raw)
    requires TreeRoot(level[2 * m..], k, raw) == TreeRoot(NextLevel(level[2 * m..], raw), k - 1, raw)
    ensures TreeRoot(level, k + 1, raw) == TreeRoot(NextLevel(level, raw), k, raw)
  {
    LevelSplits(level, m, raw);
    TreeSplits(level, k, raw);
    TreeSplits(NextLevel(level, raw), k - 1, raw);
  }

  /** How many levels the loop goes through. */
  function Height(n: nat): nat
    requires n > 0
  {
    if n == 1 then 0 else 1 + Height((n + 1) / 2)
  }

  lemma HeightFits(n: nat)
    requires n > 0
    ensures n <= Pow2(Height(n))
  {
    if n == 1 {
    } else {
      HeightFits((n + 1) / 2);
    }
  }

  /** The loop computes the root of the tree built from the top. */
  lemma {:induction false} LoopComputesTreeRoot(level: seq<Bytes>, raw: RawSha)
    requires level != []
    ensures |level| <= Pow2(Height(|level|))
    ensures Root(level, raw) == TreeRoot(level, Height(|level|), raw)
    decreases |level|
  {
    HeightFits(|level|);
    if |level| <= 1 {
    } else {
      var k := Height((|level| + 1) / 2);
      assert Height(|level|) == k + 1;
      LevelTakesHeightOff(level, k, raw);
      LoopComputesTreeRoot(NextLevel(level, raw), raw);
    }
  }

  // ----- The root commits to the leaves -----

  ghost predicate Wide(level: seq<Bytes>) {
    forall i :: 0 <= i < |level| ==> |level[i]| == 32
  }

  /** Everything hashed on the way to the root. */
  ghost function MerkleInputs(level: seq<Bytes>, raw: RawSha): set<Bytes>
    decreases |level|
  {
    if |level| <= 1 then {}
    else (set i | 0 <= i < (|level| + 1) / 2 :: Pair(level, i)) + MerkleInputs(NextLevel(level, raw), raw)
  }

  lemma SamePairsSameLevel(a: seq<Bytes>, b: seq<Bytes>)
    requires |a| == |b| && Wide(a) && Wide(b)
    requires forall i :: 0 <= i < (|a| + 1) / 2 ==> Pair(a, i) == Pair(b, i)
    ensures a == b
  {
    forall j | 0 <= j < |a|
      ensures a[j] == b[j]
    {
      var i := j / 2;
      var p, q := Pair(a, i), Pair(b, i);
      assert p[..32] == a[2 * i] && q[..32] == b[2 * i];
      if j == 2 * i + 1 {
        assert p[32..] == a[j] && q[32..] == b[j];
      }
    }
  }

  /** Equally many leaves with one root are the same leaves. */
  lemma {:induction false} RootCommitsToLeaves(a: seq<Bytes>, b: seq<Bytes>, raw: RawSha, inputs: set<Bytes>)
    requires |a| == |b| > 0 && Wide(a) && Wide(b) && DigestBytes(raw)
    requires MerkleInputs(a, raw) <= inputs && MerkleInputs(b, raw) <= inputs && CollisionFreeOn(raw, inputs)
    requires Root(a, raw) == Root(b, raw)
    ensures a == b
    decreases |a|
  {
    if |a| <= 1 {
    } else {
      var x, y := NextLevel(a, raw), NextLevel(b, raw);
      RootCommitsToLeaves(x, y, raw, inputs);
      forall i | 0 <= i < (|a| + 1) / 2
        ensures Pair(a, i) == Pair(b, i)
      {
        assert x[i] == raw(Pair(a, i)) && y[i] == raw(Pair(b, i));
        assert Pair(a, i) in MerkleInputs(a, raw) && Pair(b, i) in MerkleInputs(b, raw);
      }
      SamePairsSameLevel(a, b);
    }
  }

  /** The smallest trees, spelled out: one leaf is its own root, two are hashed
      left before right, and a third is hashed with itself. */
  lemma SmallRoots(a: Bytes, b: Bytes, c: Bytes, raw: RawSha)
    ensures Root([a], raw) == a
    ensures Root([a, b], raw) == raw(a + b)
    ensures Root([a, b, c], raw) == raw(raw(a + b) + raw(c + c))
  {
    assert NextLevel([a, b], raw) == [raw(a + b)] by {
      assert Pair([a, b], 0) == a + b;
    }
    assert NextLevel([a, b, c], raw) == [raw(a + b), raw(c + c)] by {
      assert Pair([a, b, c], 0) == a + b && Pair([a, b, c], 1) == c + c;
    }
    var ab, cc := raw(a + b), raw(c + c);
    assert NextLevel([ab, cc], raw) == [raw(ab + cc)] by {
      assert Pair([ab, cc], 0) == ab + cc;
    }
    assert Root([a, b, c], raw) == Root([ab, cc], raw) == Root([raw(ab + cc)], raw);
  }

  /** A leaf is what its hash spells in hex, or thirty-two zero bytes. */
  lemma LeafOfHash(b: Bytes)
    requires AreBytes(b)
    ensures Leaf(HexEncode(b)) == b
    ensures |Leaf("g")| == 32 && forall i :: 0 <= i < 32 ==> Leaf("g")[i] == 0 as char
  {
    HexRoundTrip(b);
    assert HexDecode("g").None?;
    AllZero(32);
  }

  lemma {:induction false} AllZero(n: nat)
    ensures forall i :: 0 <= i < n ==> ZeroBytes(n)[i] == 0 as char
  {
    if n == 0 {
    } else {
      AllZero(n - 1);
    }
  }

  // ----- The chain of effects -----

  /** Each effect's text is hashed after the hash before it. */
  function ChainText(previous: string, body: string): Bytes {
    previous + "\n" + body
  }

  function ChainHashes(bodies: seq<string>, raw: RawSha): (hashes: seq<string>)
    requires forall x :: AreBytes(raw(x))
    ensures |hashes| == |bodies|
  {
    if bodies == [] then []
    else
      var front := ChainHashes(bodies[..|bodies| - 1], raw);
      front + [HexEncode(raw(ChainText(LastOr(front), bodies[|bodies| - 1])))]
  }

  /** Each hash of a chain is that of the one before it, a newline and the text;
      the first follows sixty-four zeros. */
  lemma {:induction false} ChainLinks(bodies: seq<string>, raw: RawSha, k: nat)
    requires (forall x :: AreBytes(raw(x))) && k < |bodies|
    ensures ChainHashes(bodies, raw)[k] ==
            HexEncode(raw((if k == 0 then NULL_HASH else ChainHashes(bodies, raw)[k - 1]) + ['\n'] + bodies[k]))
    decreases |bodies|
  {
    var front := bodies[..|bodies| - 1];
    if k < |front| {
      ChainLinks(front, raw, k);
      assert front[k] == bodies[k];
    }
  }

  function LastOr(hashes: seq<string>): string {
    if hashes == [] then NULL_HASH else hashes[|hashes| - 1]
  }

  method ChainEffects(bodies: seq<string>, raw: RawSha) returns (hashes: seq<string>)
    requires forall x :: AreBytes(raw(x))
    ensures hashes == ChainHashes(bodies, raw)
  {
    hashes := [];
    var previous := NULL_HASH;
    for i := 0 to |bodies|
      invariant hashes == ChainHashes(bodies[..i], raw)
      invariant previous == LastOr(hashes)
    {
      assert bodies[..i + 1][..i] == bodies[..i];
      var hash := HexEncode(raw(ChainText(previous, bodies[i])));
      hashes := hashes + [hash];
      previous := hash;
    }
    assert bodies[..|bodies|] == bodies;
  }

  ghost function ChainInputs(bodies: seq<string>, raw: RawSha): set<Bytes>
    requires forall x :: AreBytes(raw(x))
  {
    if bodies == [] then {}
    else
      ChainInputs(bodies[..|bodies| - 1], raw) +
      {ChainText(LastOr(ChainHashes(bodies[..|bodies| - 1], raw)), bodies[|bodies| - 1])}
  }

  /** A digest in hex, as `hex::encode` spells it. */
  predicate SpellsDigest(hash: string) {
    match HexDecode(hash)
    case None => false
    case Some(d) => AreBytes(d) && |d| == 32 && HexEncode(d) == hash
  }

  lemma ChainHashesAreDigests(bodies: seq<string>, raw: RawSha)
    requires DigestBytes(raw)
    ensures forall i :: 0 <= i < |bodies| ==> SpellsDigest(ChainHashes(bodies, raw)[i])
  {
    if bodies == [] {
    } else {
      ChainHashesAreDigests(bodies[..|bodies| - 1], raw);
      var text := ChainText(LastOr(ChainHashes(bodies[..|bodies| - 1], raw)), bodies[|bodies| - 1]);
      HexRoundTrip(raw(text));
    }
  }

  /** Equal chains of hashes are chains of the same effects. */
  lemma {:induction false} ChainCommitsToBodies(a: seq<string>, b: seq<string>, raw: RawSha, inputs: set<Bytes>)
    requires DigestBytes(raw) && ChainHashes(a, raw) == ChainHashes(b, raw)
    requires ChainInputs(a, raw) <= inputs && ChainInputs(b, raw) <= inputs && CollisionFreeOn(raw, inputs)
    ensures a == b
    decreases |a|
  {
    assert |a| == |ChainHashes(a, raw)| == |b|;
    if a == [] {
    } else {
      var n := |a| - 1;
      var ha, hb := ChainHashes(a[..n], raw), ChainHashes(b[..n], raw);
      assert ha == ChainHashes(a, raw)[..n] && hb == ChainHashes(b, raw)[..n];
      ChainCommitsToBodies(a[..n], b[..n], raw, inputs);
      var ta, tb := ChainText(LastOr(ha), a[n]), ChainText(LastOr(hb), b[n]);
      assert ChainHashes(a, raw)[n] == HexEncode(raw(ta)) && ChainHashes(b, raw)[n] == HexEncode(raw(tb));
      HexRoundTrip(raw(ta));
      HexRoundTrip(raw(tb));
      assert ta == tb;
      var k := |LastOr(ha)| + 1;
      assert ta[k..] == a[n] && tb[k..] == b[n];
      SplitLast(a);
      SplitLast(b);
    }
  }

  lemma SameLeavesSameHashes(a: seq<string>, b: seq<string>)
    requires |a| == |b| && Leaves(a) == Leaves(b)
    requires forall i :: 0 <= i < |a| ==> SpellsDigest(a[i]) && SpellsDigest(b[i])
    ensures a == b
  {
    forall i | 0 <= i < |a|
      ensures a[i] == b[i]
    {
      assert Leaves(a)[i] == Leaf(a[i]) && Leaves(b)[i] == Leaf(b[i]);
    }
  }

  lemma DigestLeavesAreWide(hashes: seq<string>)
    requires forall i :: 0 <= i < |hashes| ==> SpellsDigest(hashes[i])
    ensures Wide(Leaves(hashes))
  {
  }

  lemma SameTextSameRoot(a: seq<string>, b: seq<string>, raw: RawSha)
    requires forall x :: AreBytes(raw(x))
    requires a != [] && b != [] && RootText(a, raw) == RootText(b, raw)
    ensures Root(Leaves(a), raw) == Root(Leaves(b), raw)
  {
    LeavesAreBytes(a);
    LeavesAreBytes(b);
    RootIsBytes(Leaves(a), raw);
    RootIsBytes(Leaves(b), raw);
    HexRoundTrip(Root(Leaves(a), raw));
    HexRoundTrip(Root(Leaves(b), raw));
  }

  /** Everything hashed for a receipt's root. */
  ghost function HashedForRoot(bodies: seq<string>, raw: RawSha): set<Bytes>
    requires forall x :: AreBytes(raw(x))
  {
    ChainInputs(bodies, raw) + MerkleInputs(Leaves(ChainHashes(bodies, raw)), raw)
  }

  /** A receipt's root commits to the texts it was chained from and their order. */
  lemma ReceiptRootCommitsToBodies(a: seq<string>, b: seq<string>, raw: RawSha, inputs: set<Bytes>)
    requires DigestBytes(raw) && |a| == |b| && CollisionFreeOn(raw, inputs)
    requires HashedForRoot(a, raw) <= inputs && HashedForRoot(b, raw) <= inputs
    requires RootText(ChainHashes(a, raw), raw) == RootText(ChainHashes(b, raw), raw)
    ensures a == b
  {
    if a == [] {
      return;
    }
    var ha, hb := ChainHashes(a, raw), ChainHashes(b, raw);
    SameTextSameRoot(ha, hb, raw);
    ChainHashesAreDigests(a, raw);
    ChainHashesAreDigests(b, raw);
    DigestLeavesAreWide(ha);
    DigestLeavesAreWide(hb);
    RootCommitsToLeaves(Leaves(ha), Leaves(hb), raw, inputs);
    SameLeavesSameHashes(ha, hb);
    ChainCommitsToBodies(a, b, raw, inputs);
  }
}
