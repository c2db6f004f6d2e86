/** The newest rows of the runtime ledger, cut on a row's start
    (crates/app-server/src/ledger.rs). */
module Ledgers {
  import opened Common

  /** What stands at the ledger's path. */
  datatype Place = NoFile | Unreachable | NotRegular | Regular(bytes: Bytes)

  datatype Unread = NotAFile | NotText | Unreadable

  datatype Reading = Reading(ledger: Bytes, leftOut: nat)

  predicate RowStart(bytes: Bytes, at: nat)
    requires at <= |bytes|
  {
    at == 0 || bytes[at - 1] == '\n'
  }

  /** The earliest row start within `max` bytes of the end, or the end. */
  predicate IsCut(bytes: Bytes, max: nat, cut: nat) {
    && cut <= |bytes| && |bytes| - cut <= max
    && (RowStart(bytes, cut) || cut == |bytes|)
    && forall at :: 0 <= at < cut && |bytes| - at <= max ==> !RowStart(bytes, at)
  }

  /** The first newline, or the length when there is none. */
  method Newline(bytes: Bytes) returns (at: nat)
    ensures at <= |bytes|
    ensures at < |bytes| ==> bytes[at] == '\n'
    ensures forall k :: 0 <= k < at ==> bytes[k] != '\n'
  {
    at := 0;
    while at < |bytes| && bytes[at] != '\n'
      invariant at <= |bytes|
      invariant forall k :: 0 <= k < at ==> bytes[k] != '\n'
    {
      at := at + 1;
    }
  }

  /** What is read is text when it decodes; that is decided by `isText`. */
  method ReadCapped(place: Place, max: nat, isText: Bytes -> bool) returns (r: Result<Reading, Unread>)
    ensures place.NoFile? ==> r == Ok(Reading("", 0))
    ensures place.Unreachable? ==> r == Err(Unreadable)
    ensures place.NotRegular? ==> r == Err(NotAFile)
    ensures place.Regular? && r.Ok? ==>
              && IsCut(place.bytes, max, r.value.leftOut)
              && r.value.ledger == place.bytes[r.value.leftOut..]
              && isText(r.value.ledger)
    ensures place.Regular? && r.Err? ==>
              && r.error == NotText
              && exists cut: nat :: IsCut(place.bytes, max, cut) && !isText(place.bytes[cut..])
  {
    match place
    case NoFile => return Ok(Reading("", 0));
    case Unreachable => return Err(Unreadable);
    case NotRegular => return Err(NotAFile);
    case Regular(all) =>
      var start: nat := if |all| > max then |all| - max else 0;
      var early := if start > 0 then 1 else 0;
      var bytes := all[start - early..];
      if start > 0 {
        var cut: nat := 1;
        if bytes[0] != '\n' {
          var at := Newline(bytes);
          cut := if at < |bytes| then at + 1 else |bytes|;
          forall s | 0 <= s < start + cut - early && |all| - s <= max
            ensures !RowStart(all, s)
          {
            assert all[s - 1] == bytes[s - start];
          }
        }
        bytes := bytes[cut..];
        start := start + cut - early;
      }
      assert bytes == all[start..];
      assert IsCut(all, max, start);
      if !isText(bytes) {
        return Err(NotText);
      }
      return Ok(Reading(bytes, start));
  }

  /** There is one cut, and a larger cap never leaves out more. */
  lemma LargerCapKeepsMore(bytes: Bytes, max: nat, cut: nat, larger: nat, other: nat)
    requires IsCut(bytes, max, cut) && IsCut(bytes, larger, other) && max <= larger
    ensures other <= cut
    ensures max == larger ==> other == cut
  {
    assert cut == |bytes| || RowStart(bytes, cut);
    assert other == |bytes| || RowStart(bytes, other);
  }

  /** What is kept and what is left out make up the file, and no row is kept
      in part from its start. */
  lemma CutAccountsForTheFile(bytes: Bytes, max: nat, cut: nat)
    requires IsCut(bytes, max, cut)
    ensures cut + |bytes[cut..]| == |bytes| && |bytes[cut..]| <= max
    ensures bytes[..cut] + bytes[cut..] == bytes
    ensures |bytes| <= max ==> cut == 0
    ensures bytes[cut..] != [] && cut > 0 ==> bytes[..cut][cut - 1] == '\n'
  {
    assert RowStart(bytes, 0);
  }
}
