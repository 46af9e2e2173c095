/** Sequences without repetition. */
module Seqs {
  predicate Distinct<T(==)>(s: seq<T>) { forall i, j :: 0 <= i < j < |s| ==> s[i] != s[j] }

  predicate Within(s: seq<nat>, n: nat) { forall i :: 0 <= i < |s| ==> s[i] < n }

  function IndexOf<T(==)>(s: seq<T>, e: T): (i: nat)
    requires e in s
    ensures i < |s| && s[i] == e
    ensures forall j :: 0 <= j < i ==> s[j] != e
  {
    if s[0] == e then 0 else 1 + IndexOf(s[1..], e)
  }

  /** Taking out the element at place k of a sequence that holds it once. */
  lemma Without<T>(s: seq<T>, k: nat)
    requires k < |s| && Distinct(s)
    ensures var t := s[..k] + s[k + 1..]; Distinct(t) && forall x :: x in t <==> x in s && x != s[k]
  {
    var t := s[..k] + s[k + 1..];
    assert forall i :: 0 <= i < |t| ==> t[i] == s[if i < k then i else i + 1];
    forall x | x in s && x != s[k] ensures x in t {
      var i :| 0 <= i < |s| && s[i] == x;
      assert t[if i < k then i else i - 1] == x;
    }
  }
}
