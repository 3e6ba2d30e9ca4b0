/** Sequences without repetition, as lists threaded through objects or tables spell them out. */
module Sequences {
  predicate Distinct<T(==)>(s: seq<T>) {
    forall i, j :: 0 <= i < j < |s| ==> s[i] != s[j]
  }

  function Removed<T>(s: seq<T>, k: nat): seq<T>
    requires k < |s|
  {
    s[..k] + s[k+1..]
  }

  lemma DistinctRemoved<T>(s: seq<T>, k: nat)
    requires Distinct(s) && k < |s|
    ensures Distinct(Removed(s, k))
    ensures forall x :: x in Removed(s, k) <==> x in s && x != s[k]
  {
  }
}
