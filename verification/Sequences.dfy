/** Sequences of numbers: no element twice, and one element removed. */
module Sequences {

  ghost predicate Distinct(l: seq<nat>) {
    forall i, j :: 0 <= i < j < |l| ==> l[i] != l[j]
  }

  function Without(l: seq<nat>, k: nat): (r: seq<nat>)
    requires k < |l|
    ensures |r| == |l| - 1
  {
    l[..k] + l[k + 1..]
  }

  lemma WithoutAt(l: seq<nat>, k: nat, i: nat)
    requires k < |l| && i < |l| - 1
    ensures Without(l, k)[i] == if i < k then l[i] else l[i + 1]
  {
  }

  lemma WithoutMembers(l: seq<nat>, k: nat)
    requires Distinct(l) && k < |l|
    ensures Distinct(Without(l, k)) && l[k] !in Without(l, k)
    ensures forall q :: q in Without(l, k) <==> q in l && q != l[k]
  {
    var l' := Without(l, k);
    forall q | q in l && q != l[k]
      ensures q in l'
    {
      var j :| 0 <= j < |l| && l[j] == q;
      assert l'[if j < k then j else j - 1] == q;
    }
  }
}
