/** Choosing among the checksums of a release. */
module Checksum {
  import opened Wrappers

  datatype Kind = MD5 | SHA1 | SHA256 | SHA384 | SHA512

  /** fwupd_checksum_guess_kind(): by the length of the hex digest; a missing checksum reads as SHA-1. */
  function GuessKind(checksum: Option<string>): Kind {
    match checksum
    case None => SHA1
    case Some(c) =>
      if |c| == 32 then MD5
      else if |c| == 40 then SHA1
      else if |c| == 64 then SHA256
      else if |c| == 96 then SHA384
      else if |c| == 128 then SHA512
      else SHA1
  }

  /** The size of a digest in bytes. */
  ghost function DigestSize(kind: Kind): nat {
    match kind
    case MD5 => 16
    case SHA1 => 20
    case SHA256 => 32
    case SHA384 => 48
    case SHA512 => 64
  }

  /** A checksum is taken for the kind whose digest it is long enough to hold, at two digits a byte, and for
      SHA-1 when there is no such kind. */
  lemma GuessIsBySize(c: string)
    ensures forall kind :: |c| == 2 * DigestSize(kind) ==> GuessKind(Some(c)) == kind
    ensures (forall kind :: |c| != 2 * DigestSize(kind)) ==> GuessKind(Some(c)) == SHA1
    ensures GuessKind(None) == SHA1
  {
    forall kind | |c| == 2 * DigestSize(kind) ensures GuessKind(Some(c)) == kind {
      match kind case MD5 => case SHA1 => case SHA256 => case SHA384 => case SHA512 =>
    }
    assert |c| == 2 * DigestSize(MD5) || |c| == 2 * DigestSize(SHA256) || |c| == 2 * DigestSize(SHA384)
        || |c| == 2 * DigestSize(SHA512) || GuessKind(Some(c)) == SHA1;
  }

  /** The kinds in order of preference. */
  const Preference: seq<Kind> := [SHA512, SHA256, SHA384, SHA1]

  /** Position in the order of preference; unsuitable kinds come last. */
  ghost function Rank(c: string): nat {
    match GuessKind(Some(c))
    case SHA512 => 0
    case SHA256 => 1
    case SHA384 => 2
    case SHA1 => 3
    case MD5 => 4
  }

  /** The checksum at `j` is suitable, none is better, and none as good comes earlier. */
  ghost predicate IsBestAt(cs: seq<string>, j: nat) {
    && j < |cs| && Rank(cs[j]) < 4
    && (forall i :: 0 <= i < |cs| ==> Rank(cs[j]) <= Rank(cs[i]))
    && (forall i :: 0 <= i < j ==> Rank(cs[j]) < Rank(cs[i]))
  }

  /** The best checksum, by keeping the better of each prefix and the next element. */
  ghost function Best(cs: seq<string>): Option<string> {
    if cs == [] then None
    else
      var best, last := Best(cs[..|cs| - 1]), cs[|cs| - 1];
      if Rank(last) < (if best.Some? then Rank(best.value) else 4) then Some(last) else best
  }

  lemma BestAppend(cs: seq<string>, j: nat, c: string)
    requires IsBestAt(cs, j)
    ensures IsBestAt(cs + [c], if Rank(c) < Rank(cs[j]) then |cs| else j)
  {
  }

  lemma OnlyBest(cs: seq<string>, c: string)
    requires Rank(c) < 4 && forall i :: 0 <= i < |cs| ==> Rank(cs[i]) == 4
    ensures IsBestAt(cs + [c], |cs|)
  {
  }

  lemma {:induction false} BestMeaning(cs: seq<string>)
    ensures Best(cs).None? <==> forall i :: 0 <= i < |cs| ==> GuessKind(Some(cs[i])) == MD5
    ensures Best(cs).Some? ==> exists j: nat :: IsBestAt(cs, j) && cs[j] == Best(cs).value
    decreases |cs|
  {
    if cs != [] {
      var (before, c) := (cs[..|cs| - 1], cs[|cs| - 1]);
      assert cs == before + [c];
      BestMeaning(before);
      if Best(before).Some? {
        var j: nat :| IsBestAt(before, j) && before[j] == Best(before).value;
        BestAppend(before, j, c);
      } else if Rank(c) < 4 {
        OnlyBest(before, c);
      }
    }
  }

  lemma BestAt(cs: seq<string>, j: nat)
    requires IsBestAt(cs, j)
    ensures Best(cs) == Some(cs[j])
  {
    BestMeaning(cs);
    var k: nat :| IsBestAt(cs, k) && cs[k] == Best(cs).value;
  }

  /** fwupd_checksum_get_best() */
  method GetBest(cs: seq<string>) returns (r: Option<string>)
    ensures r == Best(cs)
  {
    for i := 0 to |Preference|
      invariant forall j :: 0 <= j < |cs| ==> Rank(cs[j]) >= i
    {
      for j := 0 to |cs|
        invariant forall k :: 0 <= k < j ==> Rank(cs[k]) > i
      {
        if GuessKind(Some(cs[j])) == Preference[i] {
          BestAt(cs, j);
          return Some(cs[j]);
        }
      }
    }
    BestMeaning(cs);
    return None;
  }

  /** fwupd_checksum_get_by_kind() */
  method GetByKind(cs: seq<string>, kind: Kind) returns (r: Option<string>)
    ensures r.None? <==> forall i :: 0 <= i < |cs| ==> GuessKind(Some(cs[i])) != kind
    ensures r == FirstOfKind(cs, kind)
  {
    var j := 0;
    while j < |cs|
      invariant 0 <= j <= |cs| && FirstOfKind(cs, kind) == FirstOfKind(cs[j..], kind)
      invariant forall i :: 0 <= i < j ==> GuessKind(Some(cs[i])) != kind
    {
      if GuessKind(Some(cs[j])) == kind {
        return Some(cs[j]);
      }
      assert cs[j..][1..] == cs[j + 1..];
      j := j + 1;
    }
    return None;
  }

  function FirstOfKind(cs: seq<string>, kind: Kind): Option<string> {
    if cs == [] then None
    else if GuessKind(Some(cs[0])) == kind then Some(cs[0])
    else FirstOfKind(cs[1..], kind)
  }

  /** The checksum at `j` is the first of its kind. */
  ghost predicate IsFirstOfKind(cs: seq<string>, kind: Kind, j: nat) {
    j < |cs| && GuessKind(Some(cs[j])) == kind && forall i :: 0 <= i < j ==> GuessKind(Some(cs[i])) != kind
  }

  lemma {:induction false} FirstOfKindMeaning(cs: seq<string>, kind: Kind) returns (j: nat)
    ensures if FirstOfKind(cs, kind).None? then forall i :: 0 <= i < |cs| ==> GuessKind(Some(cs[i])) != kind
            else IsFirstOfKind(cs, kind, j) && FirstOfKind(cs, kind) == Some(cs[j])
  {
    j := 0;
    if cs != [] && GuessKind(Some(cs[0])) != kind {
      j := FirstOfKindMeaning(cs[1..], kind);
      j := j + 1;
    }
  }

  /** The checksum at `j` is the first of this length. */
  ghost predicate FirstOfLength(cs: seq<string>, length: nat, j: nat) {
    j < |cs| && |cs[j]| == length && forall i :: 0 <= i < j ==> |cs[i]| != length
  }

  ghost predicate NoneOfLength(cs: seq<string>, length: nat) {
    forall i :: 0 <= i < |cs| ==> |cs[i]| != length
  }

  /** The order of preference, told by lengths: 512 bits, then 256, then 384, then the first that is not an
      MD5 digest; and none when there are only those. */
  lemma BestByLength(cs: seq<string>, j: nat)
    ensures FirstOfLength(cs, 128, j) ==> Best(cs) == Some(cs[j])
    ensures NoneOfLength(cs, 128) && FirstOfLength(cs, 64, j) ==> Best(cs) == Some(cs[j])
    ensures NoneOfLength(cs, 128) && NoneOfLength(cs, 64) && FirstOfLength(cs, 96, j) ==> Best(cs) == Some(cs[j])
    ensures && NoneOfLength(cs, 128) && NoneOfLength(cs, 64) && NoneOfLength(cs, 96)
            && j < |cs| && |cs[j]| != 32 && (forall i :: 0 <= i < j ==> |cs[i]| == 32)
            ==> Best(cs) == Some(cs[j])
    ensures (forall i :: 0 <= i < |cs| ==> |cs[i]| == 32) ==> Best(cs) == None
  {
    BestMeaning(cs);
    if IsBestAt(cs, j) { BestAt(cs, j); }
  }
}
