/** Null-terminated lists threaded through an array of `next` links, as sequences of their nodes. */
module LinkedLists {
  import opened Options
  import opened Sequences

  type Links = seq<Option<nat>>

  function Head(l: seq<nat>): Option<nat> {
    if l == [] then None else Some(l[0])
  }

  ghost predicate Chain(next: Links, l: seq<nat>) {
    forall k {:trigger l[k]} :: 0 <= k < |l| ==> l[k] < |next| && next[l[k]] == Head(l[k + 1..])
  }

  /** Unlinking position `k`: the head moves on, or the predecessor skips the node. */
  function SkipLink(next: Links, l: seq<nat>, k: nat): (r: Links)
    requires k < |l| && forall i :: 0 <= i < |l| ==> l[i] < |next|
    ensures |r| == |next|
  {
    if k == 0 then next else next[l[k - 1] := next[l[k]]]
  }

  lemma TailHead(l: seq<nat>, k: nat)
    requires k < |l|
    ensures Head(l[k + 1..]) == if k + 1 < |l| then Some(l[k + 1]) else None
  {
  }

  lemma Unlinked(next: Links, l: seq<nat>, k: nat)
    requires Chain(next, l) && Distinct(l) && k < |l|
    ensures Chain(SkipLink(next, l, k), Without(l, k))
    ensures Head(Without(l, k)) == if k == 0 then next[l[0]] else Head(l)
  {
    var l', next' := Without(l, k), SkipLink(next, l, k);
    TailHead(l, k);
    forall i | 0 <= i < |l'|
      ensures l'[i] < |next'| && next'[l'[i]] == Head(l'[i + 1..])
    {
      var j := if i < k then i else i + 1;
      WithoutAt(l, k, i);
      if i + 1 < |l'| {
        WithoutAt(l, k, i + 1);
      }
      TailHead(l', i);
      TailHead(l, j);
    }
  }

  /** Linking `p`, in no list, behind the last node. */
  function TailLink(next: Links, l: seq<nat>, p: nat): (r: Links)
    requires p < |next| && forall i :: 0 <= i < |l| ==> l[i] < |next|
    ensures |r| == |next|
  {
    (if l == [] then next else next[l[|l| - 1] := Some(p)])[p := None]
  }

  lemma Appended(next: Links, l: seq<nat>, p: nat)
    requires Chain(next, l) && Distinct(l) && p !in l && p < |next|
    ensures Chain(TailLink(next, l, p), l + [p]) && Distinct(l + [p])
    ensures Head(l + [p]) == if l == [] then Some(p) else Head(l)
  {
    var l', next' := l + [p], TailLink(next, l, p);
    forall i | 0 <= i < |l'|
      ensures l'[i] < |next'| && next'[l'[i]] == Head(l'[i + 1..])
    {
      TailHead(l', i);
      if i < |l| {
        assert l'[i] == l[i];
        TailHead(l, i);
      }
    }
  }

  lemma Prepended(next: Links, l: seq<nat>, p: nat)
    requires Chain(next, l) && Distinct(l) && p !in l && p < |next|
    ensures Chain(next[p := Head(l)], [p] + l) && Distinct([p] + l)
  {
    var l', next' := [p] + l, next[p := Head(l)];
    forall i | 0 <= i < |l'|
      ensures l'[i] < |next'| && next'[l'[i]] == Head(l'[i + 1..])
    {
      assert l'[i + 1..] == l[i..];
      if i > 0 {
        assert l'[i] == l[i - 1];
      }
    }
  }
}
