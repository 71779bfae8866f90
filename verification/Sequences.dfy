/** Sequences without repeats, and the places of their elements. */
module Sequences {

  predicate Distinct<T(==)>(s: seq<T>) {
    forall i, j :: 0 <= i < j < |s| ==> s[i] != s[j]
  }

  /** Where each element stands; of several places, the last. */
  function Places<T(==)>(s: seq<T>): map<T, nat> {
    if s == [] then map[] else Places(s[..|s| - 1])[s[|s| - 1] := |s| - 1]
  }

  /** Exactly the elements have a place, and they stand there. */
  lemma {:induction false} PlacesHold<T>(s: seq<T>)
    ensures forall x :: x in Places(s) <==> x in s
    ensures forall x :: x in Places(s) ==> Places(s)[x] < |s| && s[Places(s)[x]] == x
  {
    if s != [] {
      PlacesHold(s[..|s| - 1]);
      assert s == s[..|s| - 1] + [s[|s| - 1]];
    }
  }

  lemma {:induction false} PlaceIsLast<T>(s: seq<T>, i: nat)
    requires i < |s|
    ensures s[i] in Places(s) && i <= Places(s)[s[i]]
  {
    if i < |s| - 1 {
      PlaceIsLast(s[..|s| - 1], i);
    }
  }

  /** Elements that stand only once get their own places back. */
  lemma {:induction false} DistinctPlaces<T>(s: seq<T>)
    requires Distinct(s)
    ensures forall i :: 0 <= i < |s| ==> s[i] in Places(s) && Places(s)[s[i]] == i
  {
    PlacesHold(s);
    forall i | 0 <= i < |s| ensures s[i] in Places(s) && Places(s)[s[i]] == i {
      PlaceIsLast(s, i);
    }
  }

  /** Every element replaced by what a map says of it. */
  function Mapped<S(==), T>(m: map<S, T>, s: seq<S>): seq<T>
    requires forall i :: 0 <= i < |s| ==> s[i] in m
  {
    seq(|s|, i requires 0 <= i < |s| => m[s[i]])
  }
}
