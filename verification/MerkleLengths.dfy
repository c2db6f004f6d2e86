/** Which lengths of event lists a Merkle root tells apart
    (crates/receipts/src/lib.rs). */
module MerkleLengths {
  import opened Common
  import opened Merkle

  // ----- Lists of one leaf over and over -----

  function Copies(z: Bytes, n: nat): (level: seq<Bytes>)
    ensures |level| == n
  {
    seq(n, i => z)
  }

  /** `z` hashed with itself, `k` times. */
  function Climb(z: Bytes, k: nat, raw: RawSha): Bytes
    decreases k
  {
    if k == 0 then z else Climb(raw(z + z), k - 1, raw)
  }

  lemma {:induction false} ClimbOn(z: Bytes, i: nat, j: nat, raw: RawSha)
    ensures Climb(Climb(z, i, raw), j, raw) == Climb(z, i + j, raw)
    decreases i
  {
    if i == 0 {
    } else {
      ClimbOn(raw(z + z), i - 1, j, raw);
    }
  }

  lemma NextLevelOfCopies(z: Bytes, n: nat, raw: RawSha)
    ensures NextLevel(Copies(z, n), raw) == Copies(raw(z + z), (n + 1) / 2)
  {
    forall i | 0 <= i < (n + 1) / 2
      ensures NextLevel(Copies(z, n), raw)[i] == raw(z + z)
    {
      assert Pair(Copies(z, n), i) == z + z;
    }
  }

  lemma {:induction false} RootOfCopies(z: Bytes, n: nat, raw: RawSha)
    requires n > 0
    ensures Root(Copies(z, n), raw) == Climb(z, Height(n), raw)
    decreases n
  {
    if n == 1 {
    } else {
      NextLevelOfCopies(z, n, raw);
      RootOfCopies(raw(z + z), (n + 1) / 2, raw);
    }
  }

  ghost predicate Doubled(x: Bytes, z: Bytes, raw: RawSha) {
    exists k: nat :: x == Climb(z, k, raw) + Climb(z, k, raw)
  }

  lemma {:induction false} InputsOfCopies(z: Bytes, n: nat, raw: RawSha, x: Bytes)
    requires x in MerkleInputs(Copies(z, n), raw)
    ensures Doubled(x, z, raw)
    decreases n
  {
    var level := Copies(z, n);
    if x in MerkleInputs(NextLevel(level, raw), raw) {
      NextLevelOfCopies(z, n, raw);
      InputsOfCopies(raw(z + z), (n + 1) / 2, raw, x);
      var k: nat :| x == Climb(raw(z + z), k, raw) + Climb(raw(z + z), k, raw);
      assert Climb(z, k + 1, raw) == Climb(raw(z + z), k, raw);
    } else {
      var i :| 0 <= i < (n + 1) / 2 && x == Pair(level, i);
      assert x == Climb(z, 0, raw) + Climb(z, 0, raw);
    }
  }

  // ----- A leaf that hashing brings back -----

  /** All texts of `n` bytes. */
  ghost function Texts(n: nat): set<Bytes> {
    if n == 0 then {[]}
    else set c: char, s | 0 <= c as int < 256 && s in Texts(n - 1) :: [c] + s
  }

  lemma {:induction false} EveryText(s: Bytes)
    requires AreBytes(s)
    ensures s in Texts(|s|)
    decreases |s|
  {
    if s == [] {
    } else {
      EveryText(s[1..]);
      assert s == [s[0]] + s[1..];
    }
  }

  predicate Digest32(z: Bytes) {
    |z| == 32 && AreBytes(z)
  }

  lemma {:induction false} ClimbIsDigest(z: Bytes, k: nat, raw: RawSha)
    requires DigestBytes(raw) && Digest32(z)
    ensures Digest32(Climb(z, k, raw))
    decreases k
  {
    if k == 0 {
    } else {
      ClimbIsDigest(raw(z + z), k - 1, raw);
    }
  }

  /** There are finitely many digests, so hashing with itself goes in a circle. */
  lemma SomeDigestComesBack(raw: RawSha) returns (z: Bytes, period: nat)
    requires DigestBytes(raw)
    ensures Digest32(z) && period > 0 && Climb(z, period, raw) == z
  {
    var start := ZeroBytes(32);
    var n := |Texts(32)| + 1;
    var orbit := seq(n, k requires 0 <= k < n => Climb(start, k, raw));
    forall x | x in orbit
      ensures x in Texts(32)
    {
      var k :| 0 <= k < n && orbit[k] == x;
      ClimbIsDigest(start, k, raw);
      EveryText(x);
    }
    Pigeonhole(orbit, Texts(32));
    var i, j :| 0 <= i < j < |orbit| && orbit[i] == orbit[j];
    z, period := orbit[i], j - i;
    ClimbIsDigest(start, i, raw);
    ClimbOn(start, i, period, raw);
  }

  /** On the circle, what hashes alike is alike. */
  lemma NoCollisionOnCircle(z: Bytes, period: nat, i: nat, j: nat, raw: RawSha)
    requires period > 0 && Climb(z, period, raw) == z
    requires Climb(z, i + 1, raw) == Climb(z, j + 1, raw)
    ensures Climb(z, i, raw) == Climb(z, j, raw)
  {
    ClimbOn(z, period, i, raw);
    ClimbOn(z, period, j, raw);
    ClimbOn(z, i + 1, period - 1, raw);
    ClimbOn(z, j + 1, period - 1, raw);
  }

  lemma CircleIsCollisionFree(z: Bytes, period: nat, inputs: set<Bytes>, raw: RawSha)
    requires period > 0 && Climb(z, period, raw) == z
    requires forall x :: x in inputs ==> Doubled(x, z, raw)
    ensures CollisionFreeOn(raw, inputs)
  {
    forall x, y | x in inputs && y in inputs && raw(x) == raw(y)
      ensures x == y
    {
      var i: nat :| x == Climb(z, i, raw) + Climb(z, i, raw);
      var j: nat :| y == Climb(z, j, raw) + Climb(z, j, raw);
      ClimbOn(z, i, 1, raw);
      ClimbOn(z, j, 1, raw);
      assert Climb(Climb(z, i, raw), 1, raw) == raw(x) && Climb(Climb(z, j, raw), 1, raw) == raw(y);
      NoCollisionOnCircle(z, period, i, j, raw);
    }
  }

  // ----- Safe lengths -----

  /** Two lists of digests with one root, and no collision behind it. */
  ghost predicate ShareRoot(a: seq<Bytes>, b: seq<Bytes>, raw: RawSha) {
    && a != [] && b != [] && Wide(a) && Wide(b)
    && CollisionFreeOn(raw, MerkleInputs(a, raw) + MerkleInputs(b, raw))
    && Root(a, raw) == Root(b, raw)
  }

  /** A root tells lists of these lengths apart. */
  ghost predicate SafeLengths(n: nat, m: nat, raw: RawSha) {
    forall a, b :: |a| == n && |b| == m && ShareRoot(a, b, raw) ==> a == b
  }

  /** For any two lengths there are lists that share a root without a collision. */
  lemma AnyLengthsShareRoot(n: nat, m: nat, raw: RawSha) returns (a: seq<Bytes>, b: seq<Bytes>)
    requires n > 0 && m > 0 && DigestBytes(raw)
    ensures |a| == n && |b| == m && ShareRoot(a, b, raw)
  {
    var z, period := SomeDigestComesBack(raw);
    var x, y := Climb(z, Height(m), raw), Climb(z, Height(n), raw);
    a, b := Copies(x, n), Copies(y, m);
    RootOfCopies(x, n, raw);
    RootOfCopies(y, m, raw);
    ClimbOn(z, Height(m), Height(n), raw);
    ClimbOn(z, Height(n), Height(m), raw);
    ClimbIsDigest(z, Height(m), raw);
    ClimbIsDigest(z, Height(n), raw);
    forall input | input in MerkleInputs(a, raw) + MerkleInputs(b, raw)
      ensures Doubled(input, z, raw)
    {
      if input in MerkleInputs(a, raw) {
        InputsOfCopies(x, n, raw, input);
        DoubledFurtherOn(input, z, Height(m), raw);
      } else {
        InputsOfCopies(y, m, raw, input);
        DoubledFurtherOn(input, z, Height(n), raw);
      }
    }
    CircleIsCollisionFree(z, period, MerkleInputs(a, raw) + MerkleInputs(b, raw), raw);
  }

  lemma DoubledFurtherOn(x: Bytes, z: Bytes, k: nat, raw: RawSha)
    requires Doubled(x, Climb(z, k, raw), raw)
    ensures Doubled(x, z, raw)
  {
    var i: nat :| x == Climb(Climb(z, k, raw), i, raw) + Climb(Climb(z, k, raw), i, raw);
    ClimbOn(z, k, i, raw);
  }

  /** A root commits to its leaves among lists of lengths `n` and `m` exactly
      when the two are one length. */
  lemma LengthsAreSafeExactlyWhen(n: nat, m: nat, raw: RawSha)
    requires n > 0 && m > 0 && DigestBytes(raw)
    ensures SafeLengths(n, m, raw) <==> n == m
  {
    if n == m {
      forall a, b | |a| == n && |b| == m && ShareRoot(a, b, raw)
        ensures a == b
      {
        RootCommitsToLeaves(a, b, raw, MerkleInputs(a, raw) + MerkleInputs(b, raw));
      }
    } else {
      var a, b := AnyLengthsShareRoot(n, m, raw);
      assert |a| != |b|;
    }
  }
}
