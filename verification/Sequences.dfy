/**
 * Searching and splitting (`find_bytes` and `split_bytes` in
 * crates/bicdb-app-runtime/src/http.rs; `str::split` behaves the same way).
 */
module Sequences {
  import opened Prelude

  predicate OccursAt<T(==)>(s: seq<T>, marker: seq<T>, i: nat) {
    i + |marker| <= |s| && s[i..i + |marker|] == marker
  }

  ghost predicate Absent<T>(s: seq<T>, marker: seq<T>) {
    forall i: nat :: !OccursAt(s, marker, i)
  }

  /** The first occurrence of a nonempty marker at or after `from`. */
  function FirstFrom<T(==)>(s: seq<T>, marker: seq<T>, from: nat): (first: Option<nat>)
    ensures first.Some? ==>
      && from <= first.value && OccursAt(s, marker, first.value)
      && forall i: nat :: from <= i < first.value ==> !OccursAt(s, marker, i)
    ensures first.None? ==> forall i: nat :: from <= i ==> !OccursAt(s, marker, i)
    decreases |s| - from
  {
    if from + |marker| > |s| then None
    else if OccursAt(s, marker, from) then Some(from)
    else FirstFrom(s, marker, from + 1)
  }

  function Find<T(==)>(s: seq<T>, marker: seq<T>): (found: Option<nat>)
    ensures marker != [] ==> (found.None? <==> Absent(s, marker))
    ensures found.Some? ==> marker != [] && OccursAt(s, marker, found.value)
  {
    if marker == [] then None else FirstFrom(s, marker, 0)
  }

  function Split<T(==)>(s: seq<T>, marker: seq<T>): (pieces: seq<seq<T>>)
    ensures pieces != []
    decreases |s|
  {
    match Find(s, marker)
    case None => [s]
    case Some(i) => [s[..i]] + Split(s[i + |marker|..], marker)
  }

  function Join<T>(pieces: seq<seq<T>>, marker: seq<T>): seq<T>
    requires pieces != []
  {
    if |pieces| == 1 then pieces[0] else pieces[0] + marker + Join(pieces[1..], marker)
  }

  method FindBytes<T(==)>(haystack: seq<T>, needle: seq<T>) returns (found: Option<nat>)
    ensures found == Find(haystack, needle)
  {
    if needle == [] {
      return None;
    }
    var i := 0;
    while i + |needle| <= |haystack|
      invariant forall j: nat :: j < i ==> !OccursAt(haystack, needle, j)
    {
      if haystack[i..i + |needle|] == needle {
        assert OccursAt(haystack, needle, i);
        return Some(i);
      }
      i := i + 1;
    }
    return None;
  }

  /** One more piece of a split: it is the next one, and the rest is split further. */
  lemma SplitStep<T>(all: seq<seq<T>>, count: nat, rest: seq<T>, marker: seq<T>, i: nat)
    requires count <= |all| && all[count..] == Split(rest, marker) && Find(rest, marker) == Some(i)
    ensures count < |all| && all[count] == rest[..i]
    ensures all[count + 1..] == Split(rest[i + |marker|..], marker)
  {
    assert all[count + 1..] == all[count..][1..];
    assert all[count] == all[count..][0];
  }

  method SplitBytes<T(==)>(bytes: seq<T>, marker: seq<T>) returns (pieces: seq<seq<T>>)
    ensures pieces == Split(bytes, marker)
  {
    pieces := [];
    var rest := bytes;
    var offset := FindBytes(rest, marker);
    ghost var all := Split(bytes, marker);
    while offset.Some?
      invariant offset == Find(rest, marker)
      invariant |pieces| <= |all| && pieces == all[..|pieces|]
      invariant all[|pieces|..] == Split(rest, marker)
      decreases |rest|
    {
      SplitStep(all, |pieces|, rest, marker, offset.value);
      pieces := pieces + [rest[..offset.value]];
      rest := rest[offset.value + |marker|..];
      offset := FindBytes(rest, marker);
    }
    LastPiece(all, |pieces|, rest);
    pieces := pieces + [rest];
  }

  lemma LastPiece<T>(all: seq<T>, count: nat, last: T)
    requires count <= |all| && all[count..] == [last]
    ensures all == all[..count] + [last]
  {
    assert all == all[..count] + all[count..];
  }

  lemma HeadAndTail<T>(so: seq<T>, parts: seq<T>)
    requires parts != []
    ensures so + [parts[0]] + parts[1..] == so + parts
  {
  }

  /** A differing element rules an occurrence out. */
  lemma Mismatch<T>(s: seq<T>, marker: seq<T>, i: nat, k: nat)
    requires k < |marker| && i + k < |s| && s[i + k] != marker[k]
    ensures !OccursAt(s, marker, i)
  {
    assert i + |marker| <= |s| ==> s[i..i + |marker|][k] == s[i + k];
  }

  /** Occurrences inside a slice are occurrences in the whole. */
  lemma OccursInSlice<T>(s: seq<T>, from: nat, to: nat, marker: seq<T>, i: nat)
    requires from <= to <= |s| && i + |marker| <= to - from
    ensures OccursAt(s[from..to], marker, i) <==> OccursAt(s, marker, from + i)
  {
    var inner, outer := s[from..to][i..i + |marker|], s[from + i..from + i + |marker|];
    assert forall k :: 0 <= k < |marker| ==> inner[k] == s[from + i + k] == outer[k];
    assert inner == outer;
  }

  /** Splitting loses nothing, and no piece contains the marker. */
  lemma {:induction false} SplitThenJoin<T>(s: seq<T>, marker: seq<T>)
    requires marker != []
    ensures Join(Split(s, marker), marker) == s
    ensures forall i :: 0 <= i < |Split(s, marker)| ==> Absent(Split(s, marker)[i], marker)
    decreases |s|
  {
    match Find(s, marker)
    case None =>
    case Some(i) =>
      SplitThenJoin(s[i + |marker|..], marker);
      forall j: nat ensures !OccursAt(s[..i], marker, j) {
        if j + |marker| <= i {
          OccursInSlice(s, 0, i, marker, j);
        }
      }
      assert s == s[..i] + marker + s[i + |marker|..];
  }

  /** In `piece + marker` the marker occurs nowhere before its own place. */
  ghost predicate Delimits<T>(piece: seq<T>, marker: seq<T>) {
    forall i: nat :: i < |piece| ==> !OccursAt(piece + marker, marker, i)
  }

  lemma SplitDelimited<T>(piece: seq<T>, marker: seq<T>, rest: seq<T>)
    requires marker != [] && Delimits(piece, marker)
    ensures Split(piece + marker + rest, marker) == [piece] + Split(rest, marker)
  {
    var s := piece + marker + rest;
    var upTo := |piece| + |marker|;
    assert s[0..upTo] == piece + marker;
    forall i: nat | i < |piece| ensures !OccursAt(s, marker, i) {
      OccursInSlice(s, 0, upTo, marker, i);
    }
    assert s[|piece|..upTo] == marker;
    assert OccursAt(s, marker, |piece|);
    assert Find(s, marker) == Some(|piece|);
    assert s[..|piece|] == piece && s[upTo..] == rest;
  }

  /** Joining and splitting is the identity when no piece disturbs a marker. */
  lemma {:induction false} JoinThenSplit<T>(pieces: seq<seq<T>>, marker: seq<T>)
    requires marker != [] && pieces != []
    requires forall i :: 0 <= i < |pieces| ==> Absent(pieces[i], marker) && Delimits(pieces[i], marker)
    ensures Split(Join(pieces, marker), marker) == pieces
  {
    if |pieces| > 1 {
      JoinThenSplit(pieces[1..], marker);
      SplitDelimited(pieces[0], marker, Join(pieces[1..], marker));
    }
  }

  ghost predicate Disjoint<T>(s: seq<T>, marker: seq<T>) {
    forall i, j :: 0 <= i < |s| && 0 <= j < |marker| ==> s[i] != marker[j]
  }

  /** A marker cannot straddle a separator that shares no element with it. */
  lemma AbsentAcross<T>(a: seq<T>, separator: seq<T>, b: seq<T>, marker: seq<T>)
    requires marker != [] && separator != [] && Disjoint(separator, marker)
    requires Absent(a, marker) && Absent(b, marker)
    ensures Absent(a + separator + b, marker)
  {
    var s, after := a + separator + b, |a| + |separator|;
    assert s[0..|a|] == a && s[after..|s|] == b;
    forall i: nat ensures !OccursAt(s, marker, i) {
      if i + |marker| <= |a| {
        OccursInSlice(s, 0, |a|, marker, i);
      } else if after <= i && i + |marker| <= |s| {
        OccursInSlice(s, after, |s|, marker, i - after);
      } else if i + |marker| <= |s| {
        var k := if i < |a| then |a| else i;
        assert s[k] == separator[k - |a|];
        Mismatch(s, marker, i, k - i);
      }
    }
  }

  /** A piece that does not contain the marker and ends outside its alphabet delimits it. */
  lemma DelimitsByEnd<T>(piece: seq<T>, marker: seq<T>)
    requires marker != [] && Absent(piece, marker)
    requires piece == [] || Disjoint([piece[|piece| - 1]], marker)
    ensures Delimits(piece, marker)
  {
    var s := piece + marker;
    assert s[0..|piece|] == piece;
    forall i: nat | i < |piece| ensures !OccursAt(s, marker, i) {
      if i + |marker| <= |piece| {
        OccursInSlice(s, 0, |piece|, marker, i);
      } else {
        assert [piece[|piece| - 1]][0] == s[|piece| - 1];
        Mismatch(s, marker, i, |piece| - 1 - i);
      }
    }
  }

  /** A piece without the first element of the marker neither contains nor disturbs it. */
  lemma DelimitsByStart<T>(piece: seq<T>, marker: seq<T>)
    requires marker != [] && marker[0] !in piece
    ensures Absent(piece, marker) && Delimits(piece, marker)
  {
    forall i: nat
      ensures !OccursAt(piece, marker, i)
      ensures i < |piece| ==> !OccursAt(piece + marker, marker, i)
    {
      if i < |piece| {
        assert (piece + marker)[i] == piece[i];
        Mismatch(piece, marker, i, 0);
        Mismatch(piece + marker, marker, i, 0);
      }
    }
  }
}
