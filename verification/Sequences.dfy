/** Facts about sequences of anything. */
module Sequences {

  ghost predicate Distinct<T>(s: seq<T>) {
    forall i, j :: 0 <= i < j < |s| ==> s[i] != s[j]
  }

  function Min(a: nat, b: nat): nat {
    if a < b then a else b
  }

  /** The elements a filter keeps, in order. */
  function Kept<T>(s: seq<T>, keep: T -> bool): seq<T> {
    if s == [] then [] else Kept(s[..|s| - 1], keep) + if keep(s[|s| - 1]) then [s[|s| - 1]] else []
  }

  /** The `count` elements after the first `offset`, or as many as there are. */
  function Slice<T>(s: seq<T>, count: nat, offset: nat): seq<T> {
    s[Min(offset, |s|)..Min(offset + count, |s|)]
  }

  /** What a slice holds: the elements from the offset on, `count` of them or all there are. */
  lemma {:induction false} SliceIs<T>(s: seq<T>, count: nat, offset: nat)
    ensures |Slice(s, count, offset)| <= count
    ensures forall i {:trigger s[offset + i]} :: 0 <= i < count && offset + i < |s| ==>
              i < |Slice(s, count, offset)| && Slice(s, count, offset)[i] == s[offset + i]
    ensures forall i {:trigger Slice(s, count, offset)[i]} :: 0 <= i < |Slice(s, count, offset)| ==> offset + i < |s|
  {}
}
