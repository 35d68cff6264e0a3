/**
 * The user-level allocator of umalloc.c. Addresses and sizes are in units of `sizeof(Header)`. The free
 * list is a ring of headers kept in `ptr` and `size`; the ghost sequence `ring` lists it in address
 * order from the static header `base`, which is below every region sbrk returns.
 */
module UserHeap {
  const HEADER_BYTES := 8
  const MIN_UNITS := 4096
  const UINT := 0x1_0000_0000

  // ---- The ring ----

  function NextIn(ring: seq<nat>, i: nat): nat
    requires i < |ring|
  {
    if i + 1 < |ring| then ring[i + 1] else ring[0]
  }

  function Get(m: map<nat, nat>, a: nat): nat {
    if a in m then m[a] else 0
  }

  /** The end of the block at `a`. */
  function End(size: map<nat, nat>, a: nat): nat {
    a + Get(size, a)
  }

  /** Address-ordered, non-overlapping and with a gap between neighbours, so fully coalesced. */
  ghost predicate Ordered(base: nat, size: map<nat, nat>, ring: seq<nat>) {
    && |ring| > 0 && ring[0] == base && Get(size, base) == 0
    && (forall i {:trigger ring[i]} :: 1 <= i < |ring| ==> Get(size, ring[i]) > 0)
    && (forall i, j :: 0 <= i < j < |ring| ==> End(size, ring[i]) < ring[j])
  }

  /** The headers are linked in a circle. */
  ghost predicate Linked(ptr: map<nat, nat>, ring: seq<nat>) {
    forall i {:trigger NextIn(ring, i)} :: 0 <= i < |ring| ==> Get(ptr, ring[i]) == NextIn(ring, i)
  }

  ghost predicate LiveSized(base: nat, size: map<nat, nat>, live: map<nat, nat>) {
    forall a :: a in live ==> a > base && live[a] > 0 && Get(size, a) == live[a]
  }

  ghost predicate LiveDisjoint(live: map<nat, nat>) {
    forall a, b :: a in live && b in live && a < b ==> a + live[a] <= b
  }

  ghost predicate LiveNotFree(size: map<nat, nat>, ring: seq<nat>, live: map<nat, nat>) {
    forall a, i :: a in live && 1 <= i < |ring| ==> a + live[a] <= ring[i] || End(size, ring[i]) <= a
  }

  /** Live blocks are above base, non-empty, disjoint from each other and from every free block. */
  ghost predicate LiveApart(base: nat, size: map<nat, nat>, ring: seq<nat>, live: map<nat, nat>) {
    LiveSized(base, size, live) && LiveDisjoint(live) && LiveNotFree(size, ring, live)
  }

  function FreeUnits(size: map<nat, nat>, ring: seq<nat>): nat {
    if ring == [] then 0 else FreeUnits(size, ring[..|ring| - 1]) + Get(size, ring[|ring| - 1])
  }

  ghost function LiveUnits(live: map<nat, nat>): nat {
    if live == map[] then 0 else var a :| a in live; live[a] + LiveUnits(live - {a})
  }

  lemma {:induction false} LiveUnitsRemove(live: map<nat, nat>, a: nat)
    requires a in live
    ensures LiveUnits(live) == live[a] + LiveUnits(live - {a})
    decreases |live|
  {
    var pick :| pick in live && LiveUnits(live) == live[pick] + LiveUnits(live - {pick});
    if pick != a {
      LiveUnitsRemove(live - {pick}, a);
      LiveUnitsRemove(live - {a}, pick);
      assert live - {pick} - {a} == live - {a} - {pick};
    }
  }

  lemma LiveUnitsAdd(live: map<nat, nat>, a: nat, n: nat)
    requires a !in live
    ensures LiveUnits(live[a := n]) == n + LiveUnits(live)
  {
    LiveUnitsRemove(live[a := n], a);
    assert live[a := n] - {a} == live;
  }

  lemma {:induction false} FreeUnitsConcat(size: map<nat, nat>, s: seq<nat>, t: seq<nat>)
    ensures FreeUnits(size, s + t) == FreeUnits(size, s) + FreeUnits(size, t)
    decreases |t|
  {
    if t == [] {
      assert s + t == s;
    } else {
      FreeUnitsConcat(size, s, t[..|t| - 1]);
      assert (s + t)[..|s + t| - 1] == s + t[..|t| - 1];
    }
  }

  lemma {:induction false} FreeUnitsFrame(size: map<nat, nat>, size': map<nat, nat>, s: seq<nat>)
    requires forall i :: 0 <= i < |s| ==> Get(size', s[i]) == Get(size, s[i])
    ensures FreeUnits(size', s) == FreeUnits(size, s)
  {
    if s != [] {
      FreeUnitsFrame(size, size', s[..|s| - 1]);
    }
  }

  // ---- What free does to the ring ----

  /** The last free header below `bp`: where the walk of free stops. */
  function Before(ring: seq<nat>, bp: nat): (t: nat)
    requires |ring| > 0 && ring[0] < bp
    ensures t < |ring| && ring[t] < bp
    ensures forall i :: t < i < |ring| ==> ring[i] >= bp
  {
    var n := |ring| - 1;
    if ring[n] < bp then n else Before(ring[..n], bp)
  }

  /** The address of that header. */
  function Below(ring: seq<nat>, bp: nat): nat {
    if |ring| > 0 && ring[0] < bp then ring[Before(ring, bp)] else bp
  }

  predicate MeetsNext(size: map<nat, nat>, ring: seq<nat>, t: nat, bp: nat)
    requires t < |ring|
  {
    t + 1 < |ring| && End(size, bp) == ring[t + 1]
  }

  predicate MeetsPrevious(size: map<nat, nat>, ring: seq<nat>, t: nat, bp: nat)
    requires t < |ring|
  {
    End(size, ring[t]) == bp
  }

  /** The ring with the block at `bp` inserted after position `t` and merged with the neighbours it touches. */
  function Inserted(size: map<nat, nat>, ring: seq<nat>, t: nat, bp: nat): seq<nat>
    requires t < |ring|
  {
    ring[..t + 1] + (if MeetsPrevious(size, ring, t, bp) then [] else [bp])
    + ring[if MeetsNext(size, ring, t, bp) then t + 2 else t + 1..]
  }

  function InsertedSizes(size: map<nat, nat>, ring: seq<nat>, t: nat, bp: nat): map<nat, nat>
    requires t < |ring|
  {
    var up := Get(size, bp) + if MeetsNext(size, ring, t, bp) then Get(size, ring[t + 1]) else 0;
    if MeetsPrevious(size, ring, t, bp) then size[bp := up][ring[t] := Get(size, ring[t]) + up] else size[bp := up]
  }

  /** The block at `bp` is one that free may be given: above base and apart from every free block. */
  ghost predicate Insertable(base: nat, size: map<nat, nat>, ring: seq<nat>, bp: nat) {
    && Ordered(base, size, ring) && bp > base && Get(size, bp) > 0
    && (forall i :: 1 <= i < |ring| ==> End(size, bp) <= ring[i] || End(size, ring[i]) <= bp)
  }

  /** Where the entries of the new ring come from: index `i` of it is index `Source` of the old one, or `bp`. */
  function Source(size: map<nat, nat>, ring: seq<nat>, t: nat, bp: nat, i: nat): int
    requires t < |ring|
  {
    if i <= t then i
    else if i == t + 1 && !MeetsPrevious(size, ring, t, bp) then -1
    else i - (if MeetsPrevious(size, ring, t, bp) then 0 else 1) + (if MeetsNext(size, ring, t, bp) then 1 else 0)
  }

  lemma InsertedAt(size: map<nat, nat>, ring: seq<nat>, t: nat, bp: nat)
    requires t < |ring|
    ensures |Inserted(size, ring, t, bp)| == |ring| + (if MeetsPrevious(size, ring, t, bp) then 0 else 1)
                                                    - (if MeetsNext(size, ring, t, bp) then 1 else 0)
    ensures forall i {:trigger Inserted(size, ring, t, bp)[i]} :: 0 <= i < |Inserted(size, ring, t, bp)| ==>
              var k := Source(size, ring, t, bp, i);
              && -1 <= k < |ring| && (k == t + 1 ==> !MeetsNext(size, ring, t, bp))
              && Inserted(size, ring, t, bp)[i] == (if k == -1 then bp else ring[k])
  {
    var mid: seq<nat> := if MeetsPrevious(size, ring, t, bp) then [] else [bp];
    var from := if MeetsNext(size, ring, t, bp) then t + 2 else t + 1;
    var ring' := Inserted(size, ring, t, bp);
    assert ring' == ring[..t + 1] + mid + ring[from..];
    forall i | 0 <= i < |ring'|
      ensures var k := Source(size, ring, t, bp, i);
              -1 <= k < |ring| && ring'[i] == (if k == -1 then bp else ring[k])
    {
      if i > t + |mid| {
        assert ring'[i] == ring[from..][i - t - 1 - |mid|];
      }
    }
  }

  /** Around `bp`: the neighbours end before it and start after it. */
  lemma Neighbours(base: nat, size: map<nat, nat>, ring: seq<nat>, bp: nat)
    requires Insertable(base, size, ring, bp)
    ensures var t := Before(ring, bp);
            && (forall i :: 0 <= i <= t ==> End(size, ring[i]) <= bp)
            && (forall i :: t < i < |ring| ==> End(size, bp) <= ring[i])
            && (forall i :: 0 <= i < t ==> End(size, ring[i]) < bp)
            && (forall i :: t + 1 < i < |ring| ==> End(size, bp) < ring[i])
  {
    var t := Before(ring, bp);
    forall i | 0 <= i < t
      ensures End(size, ring[i]) < bp
    {
      assert End(size, ring[i]) < ring[t];
    }
    forall i | t < i < |ring|
      ensures End(size, bp) <= ring[i]
    {
      assert Get(size, ring[i]) > 0;
    }
    forall i | t + 1 < i < |ring|
      ensures End(size, bp) < ring[i]
    {
      assert End(size, ring[t + 1]) < ring[i];
    }
  }

  /** The end of each block of the new ring. */
  lemma InsertedEnd(base: nat, size: map<nat, nat>, ring: seq<nat>, bp: nat, k: nat)
    requires Insertable(base, size, ring, bp) && k < |ring|
    ensures var t := Before(ring, bp); var size' := InsertedSizes(size, ring, t, bp);
            var end := if MeetsNext(size, ring, t, bp) then End(size, ring[t + 1]) else End(size, bp);
            && End(size', ring[k]) == (if k == t && MeetsPrevious(size, ring, t, bp) then end else End(size, ring[k]))
            && (!MeetsPrevious(size, ring, t, bp) ==> End(size', bp) == end)
            && (forall a :: a != bp && a != ring[t] ==> Get(size', a) == Get(size, a))
  {
    Neighbours(base, size, ring, bp);
    var t := Before(ring, bp);
    if k != t {
      assert ring[k] != ring[t] by {
        if k < t { assert End(size, ring[k]) < ring[t]; } else { assert End(size, ring[t]) < ring[k]; }
      }
    }
  }

  /** free keeps the ring address-ordered, non-overlapping and fully coalesced. */
  lemma InsertKeepsOrdered(base: nat, size: map<nat, nat>, ring: seq<nat>, bp: nat)
    requires Insertable(base, size, ring, bp)
    ensures var t := Before(ring, bp); Ordered(base, InsertedSizes(size, ring, t, bp), Inserted(size, ring, t, bp))
  {
    var t := Before(ring, bp);
    var size', ring' := InsertedSizes(size, ring, t, bp), Inserted(size, ring, t, bp);
    InsertedAt(size, ring, t, bp);
    Neighbours(base, size, ring, bp);
    InsertedEnd(base, size, ring, bp, 0);
    forall i, j | 0 <= i < j < |ring'|
      ensures End(size', ring'[i]) < ring'[j]
    {
      InsertedPair(base, size, ring, bp, i, j);
    }
    forall i | 1 <= i < |ring'|
      ensures Get(size', ring'[i]) > 0
    {
      InsertedPositive(base, size, ring, bp, i);
    }
  }

  lemma InsertedPositive(base: nat, size: map<nat, nat>, ring: seq<nat>, bp: nat, i: nat)
    requires Insertable(base, size, ring, bp) && 1 <= i < |Inserted(size, ring, Before(ring, bp), bp)|
    ensures var t := Before(ring, bp); Get(InsertedSizes(size, ring, t, bp), Inserted(size, ring, t, bp)[i]) > 0
  {
    var t := Before(ring, bp);
    InsertedAt(size, ring, t, bp);
    assert Inserted(size, ring, t, bp)[i] == Inserted(size, ring, t, bp)[i];
    var k := Source(size, ring, t, bp, i);
    if k >= 0 {
      InsertedEnd(base, size, ring, bp, k);
      assert Get(size, ring[k]) > 0;
    } else {
      InsertedEnd(base, size, ring, bp, t);
    }
  }

  lemma InsertedPair(base: nat, size: map<nat, nat>, ring: seq<nat>, bp: nat, i: nat, j: nat)
    requires Insertable(base, size, ring, bp) && i < j < |Inserted(size, ring, Before(ring, bp), bp)|
    ensures var t := Before(ring, bp);
            End(InsertedSizes(size, ring, t, bp), Inserted(size, ring, t, bp)[i]) < Inserted(size, ring, t, bp)[j]
  {
    var t := Before(ring, bp);
    InsertedAt(size, ring, t, bp);
    Neighbours(base, size, ring, bp);
    var ring' := Inserted(size, ring, t, bp);
    var k, l := Source(size, ring, t, bp, i), Source(size, ring, t, bp, j);
    assert ring'[i] == (if k == -1 then bp else ring[k]) && ring'[j] == (if l == -1 then bp else ring[l]);
    InsertedEnd(base, size, ring, bp, if k >= 0 then k else t);
    if k >= 0 && l >= 0 {
      assert k < l && End(size, ring[k]) < ring[l];
    }
    if MeetsNext(size, ring, t, bp) && l > t + 1 {
      assert End(size, ring[t + 1]) < ring[l];
    }
  }

  // ---- The links ----

  /** The stores of free into `ptr`. */
  function InsertedLinks(ptr: map<nat, nat>, size: map<nat, nat>, ring: seq<nat>, t: nat, bp: nat): map<nat, nat>
    requires t < |ring|
  {
    var after := if MeetsNext(size, ring, t, bp) then Get(ptr, ring[t + 1]) else Get(ptr, ring[t]);
    ptr[bp := after][ring[t] := if MeetsPrevious(size, ring, t, bp) then after else bp]
  }

  lemma InsertDistinct(base: nat, size: map<nat, nat>, ring: seq<nat>, bp: nat)
    requires Insertable(base, size, ring, bp)
    ensures var t := Before(ring, bp); forall k :: 0 <= k < |ring| ==> ring[k] != bp && (k != t ==> ring[k] != ring[t])
  {
    var t := Before(ring, bp);
    Neighbours(base, size, ring, bp);
    forall k | 0 <= k < |ring|
      ensures ring[k] != bp && (k != t ==> ring[k] != ring[t])
    {
      assert k < t ==> End(size, ring[k]) < ring[t];
      assert k > t ==> End(size, ring[t]) < ring[k];
    }
  }

  lemma InsertKeepsLinked(base: nat, ptr: map<nat, nat>, size: map<nat, nat>, ring: seq<nat>, bp: nat)
    requires Insertable(base, size, ring, bp) && Linked(ptr, ring)
    ensures var t := Before(ring, bp); Linked(InsertedLinks(ptr, size, ring, t, bp), Inserted(size, ring, t, bp))
  {
    var t := Before(ring, bp);
    var ptr', ring' := InsertedLinks(ptr, size, ring, t, bp), Inserted(size, ring, t, bp);
    InsertDistinct(base, size, ring, bp);
    forall i | 0 <= i < |ring'|
      ensures Get(ptr', ring'[i]) == NextIn(ring', i)
    {
      InsertedLink(ptr, size, ring, t, bp, i);
    }
  }

  lemma InsertedLink(ptr: map<nat, nat>, size: map<nat, nat>, ring: seq<nat>, t: nat, bp: nat, i: nat)
    requires Linked(ptr, ring) && t < |ring| && i < |Inserted(size, ring, t, bp)|
    requires forall k :: 0 <= k < |ring| ==> ring[k] != bp && (k != t ==> ring[k] != ring[t])
    ensures Get(InsertedLinks(ptr, size, ring, t, bp), Inserted(size, ring, t, bp)[i]) ==
              NextIn(Inserted(size, ring, t, bp), i)
  {
    var ring' := Inserted(size, ring, t, bp);
    InsertedAt(size, ring, t, bp);
    var k := Source(size, ring, t, bp, i);
    assert ring'[i] == (if k == -1 then bp else ring[k]) && ring'[0] == ring[0];
    assert i + 1 < |ring'| ==>
        ring'[i + 1] == (var l := Source(size, ring, t, bp, i + 1); if l == -1 then bp else ring[l]);
    assert Get(ptr, ring[t]) == NextIn(ring, t);
    if t + 1 < |ring| {
      assert Get(ptr, ring[t + 1]) == NextIn(ring, t + 1);
    }
    if k >= 0 {
      assert Get(ptr, ring[k]) == NextIn(ring, k);
    }
  }

  // ---- Conservation ----

  lemma FreeUnitsOne(size: map<nat, nat>, a: nat)
    ensures FreeUnits(size, [a]) == Get(size, a)
  {
    assert [a][..0] == [];
  }

  lemma InsertShape(size: map<nat, nat>, ring: seq<nat>, t: nat, bp: nat)
    returns (front: seq<nat>, next: seq<nat>, rest: seq<nat>)
    requires t < |ring|
    ensures ring == front + [ring[t]] + next + rest && |front| == t
    ensures next == if MeetsNext(size, ring, t, bp) then [ring[t + 1]] else []
    ensures Inserted(size, ring, t, bp) ==
              front + [ring[t]] + (if MeetsPrevious(size, ring, t, bp) then [] else [bp]) + rest
  {
    front := ring[..t];
    next := if MeetsNext(size, ring, t, bp) then [ring[t + 1]] else [];
    rest := ring[t + 1 + |next|..];
  }

  /** The blocks away from `bp` count as before. */
  lemma InsertFrames(size: map<nat, nat>, ring: seq<nat>, t: nat, bp: nat, front: seq<nat>, next: seq<nat>,
                     rest: seq<nat>)
    requires t < |ring| && forall k :: 0 <= k < |ring| ==> ring[k] != bp && (k != t ==> ring[k] != ring[t])
    requires ring == front + [ring[t]] + next + rest && |front| == t
    ensures FreeUnits(InsertedSizes(size, ring, t, bp), front) == FreeUnits(size, front)
    ensures FreeUnits(InsertedSizes(size, ring, t, bp), rest) == FreeUnits(size, rest)
  {
    assert forall i :: 0 <= i < |front| ==> front[i] == ring[i];
    assert forall i :: 0 <= i < |rest| ==> rest[i] == ring[t + 1 + |next| + i];
    FreeUnitsFrame(size, InsertedSizes(size, ring, t, bp), front);
    FreeUnitsFrame(size, InsertedSizes(size, ring, t, bp), rest);
  }

  /** free adds exactly the units of the block to the ring. */
  lemma InsertCounts(size: map<nat, nat>, ring: seq<nat>, t: nat, bp: nat)
    requires t < |ring| && forall k :: 0 <= k < |ring| ==> ring[k] != bp && (k != t ==> ring[k] != ring[t])
    ensures FreeUnits(InsertedSizes(size, ring, t, bp), Inserted(size, ring, t, bp)) ==
              FreeUnits(size, ring) + Get(size, bp)
  {
    hide Inserted;
    var size' := InsertedSizes(size, ring, t, bp);
    var front, next, rest := InsertShape(size, ring, t, bp);
    var mid: seq<nat> := if MeetsPrevious(size, ring, t, bp) then [] else [bp];
    InsertFrames(size, ring, t, bp, front, next, rest);
    SplitCounts(size, front, ring[t], next, rest);
    SplitCounts(size', front, ring[t], mid, rest);
    FreeUnitsOne(size', bp);
    if |next| > 0 { FreeUnitsOne(size, ring[t + 1]); }
  }

  lemma SplitCounts(size: map<nat, nat>, s: seq<nat>, a: nat, mid: seq<nat>, rest: seq<nat>)
    ensures FreeUnits(size, s + [a] + mid + rest) ==
              FreeUnits(size, s) + Get(size, a) + FreeUnits(size, mid) + FreeUnits(size, rest)
  {
    FreeUnitsConcat(size, s + [a] + mid, rest);
    FreeUnitsConcat(size, s + [a], mid);
    FreeUnitsConcat(size, s, [a]);
    FreeUnitsOne(size, a);
  }

  // ---- The whole heap ----

  datatype Heap = Heap(base: nat, ptr: map<nat, nat>, size: map<nat, nat>, ring: seq<nat>, live: map<nat, nat>,
    total: nat)

  ghost predicate HeapInv(h: Heap) {
    && Ordered(h.base, h.size, h.ring) && Linked(h.ptr, h.ring)
    && LiveApart(h.base, h.size, h.ring, h.live)
    && FreeUnits(h.size, h.ring) + LiveUnits(h.live) == h.total
  }

  lemma LiveIsInsertable(h: Heap, bp: nat)
    requires HeapInv(h) && bp in h.live
    ensures Insertable(h.base, h.size, h.ring, bp)
  {
  }

  /** The heap after free of the live block at `bp`. */
  ghost function Freed(h: Heap, bp: nat): Heap
    requires HeapInv(h) && bp in h.live
  {
    var t := Before(h.ring, bp);
    h.(ptr := InsertedLinks(h.ptr, h.size, h.ring, t, bp), size := InsertedSizes(h.size, h.ring, t, bp),
       ring := Inserted(h.size, h.ring, t, bp), live := h.live - {bp})
  }

  lemma FreedApart(h: Heap, bp: nat, a: nat, i: nat)
    requires HeapInv(h) && bp in h.live && a in h.live && a != bp
    requires 1 <= i < |Freed(h, bp).ring|
    ensures var r := Freed(h, bp).ring[i]; a + h.live[a] <= r || End(Freed(h, bp).size, r) <= a
  {
    hide Linked, FreeUnits, LiveUnits, InsertedLinks;
    LiveIsInsertable(h, bp);
    var t := Before(h.ring, bp);
    InsertedAt(h.size, h.ring, t, bp);
    Neighbours(h.base, h.size, h.ring, bp);
    var k := Source(h.size, h.ring, t, bp, i);
    assert Freed(h, bp).ring[i] == if k == -1 then bp else h.ring[k];
    InsertedEnd(h.base, h.size, h.ring, bp, if k >= 0 then k else t);
  }

  /** free keeps everything: order, coalescing, links, disjointness and the unit count. */
  lemma FreedKeepsInv(h: Heap, bp: nat)
    requires HeapInv(h) && bp in h.live
    ensures HeapInv(Freed(h, bp))
  {
    LiveIsInsertable(h, bp);
    InsertKeepsOrdered(h.base, h.size, h.ring, bp);
    InsertKeepsLinked(h.base, h.ptr, h.size, h.ring, bp);
    InsertDistinct(h.base, h.size, h.ring, bp);
    InsertCounts(h.size, h.ring, Before(h.ring, bp), bp);
    LiveUnitsRemove(h.live, bp);
    FreedKeepsLive(h, bp);
  }

  lemma FreedKeepsLive(h: Heap, bp: nat)
    requires HeapInv(h) && bp in h.live
    ensures LiveApart(h.base, Freed(h, bp).size, Freed(h, bp).ring, Freed(h, bp).live)
  {
    var h' := Freed(h, bp);
    LiveIsInsertable(h, bp);
    forall a, i | a in h'.live && 1 <= i < |h'.ring|
      ensures a + h'.live[a] <= h'.ring[i] || End(h'.size, h'.ring[i]) <= a
    {
      FreedApart(h, bp, a, i);
    }
    var t := Before(h.ring, bp);
    InsertedEnd(h.base, h.size, h.ring, bp, t);
    forall a | a in h'.live
      ensures Get(h'.size, a) == h'.live[a]
    {
      assert a != h.ring[t];
    }
  }

  // ---- What malloc does to the ring ----

  /** Free block `k` can serve `n` units. */
  ghost predicate Fits(h: Heap, k: nat, n: nat) {
    k < |h.ring| && Get(h.size, h.ring[k]) >= n
  }

  /** The address malloc returns when it takes `n` units from free block `k`: the block, or its tail. */
  ghost function TakenAt(h: Heap, k: nat, n: nat): nat
    requires Fits(h, k, n)
  {
    h.ring[k] + (Get(h.size, h.ring[k]) - n)
  }

  ghost function Taken(h: Heap, k: nat, n: nat): Heap
    requires Fits(h, k, n) && k > 0
  {
    var p, q := h.ring[k], TakenAt(h, k, n);
    if Get(h.size, p) == n then
      h.(ptr := h.ptr[h.ring[k - 1] := Get(h.ptr, p)], ring := h.ring[..k] + h.ring[k + 1..], live := h.live[p := n])
    else
      h.(size := h.size[p := Get(h.size, p) - n][q := n], live := h.live[q := n])
  }

  lemma TakenWhole(h: Heap, k: nat, n: nat)
    requires HeapInv(h) && Fits(h, k, n) && 0 < k && 0 < n == Get(h.size, h.ring[k])
    ensures HeapInv(Taken(h, k, n)) && TakenAt(h, k, n) !in h.live
  {
    var p := h.ring[k];
    assert p !in h.live;
    WithoutOrdered(h.base, h.size, h.ring, k);
    WithoutCounts(h.size, h.ring, k);
    LiveUnitsAdd(h.live, p, n);
    TakenWholeLinked(h.ptr, h.ring, k);
    TakenWholeLive(h, k, n);
  }

  lemma WithoutOrdered(base: nat, size: map<nat, nat>, ring: seq<nat>, k: nat)
    requires Ordered(base, size, ring) && 0 < k < |ring|
    ensures Ordered(base, size, ring[..k] + ring[k + 1..])
    ensures forall i, j :: 0 <= i < j < |ring| ==> ring[i] < ring[j]
  {
    var ring' := ring[..k] + ring[k + 1..];
    assert forall i :: 0 <= i < |ring'| ==> ring'[i] == ring[if i < k then i else i + 1];
    forall i, j | 0 <= i < j < |ring|
      ensures ring[i] < ring[j]
    {
      assert End(size, ring[i]) < ring[j];
    }
  }

  lemma WithoutCounts(size: map<nat, nat>, ring: seq<nat>, k: nat)
    requires k < |ring|
    ensures FreeUnits(size, ring[..k] + ring[k + 1..]) + Get(size, ring[k]) == FreeUnits(size, ring)
  {
    var s, rest := ring[..k], ring[k + 1..];
    assert ring == s + [ring[k]] + [] + rest;
    SplitCounts(size, s, ring[k], [], rest);
    FreeUnitsConcat(size, s, rest);
  }

  lemma TakenWholeLive(h: Heap, k: nat, n: nat)
    requires HeapInv(h) && Fits(h, k, n) && 0 < k && 0 < n == Get(h.size, h.ring[k])
    ensures LiveApart(h.base, h.size, h.ring[..k] + h.ring[k + 1..], h.live[h.ring[k] := n])
  {
    var p, ring', live' := h.ring[k], h.ring[..k] + h.ring[k + 1..], h.live[h.ring[k] := n];
    forall a, i | a in live' && 1 <= i < |ring'|
      ensures a + live'[a] <= ring'[i] || End(h.size, ring'[i]) <= a
    {
      var j := if i < k then i else i + 1;
      assert ring'[i] == h.ring[j];
      assert j < k ==> End(h.size, h.ring[j]) < p;
      assert j > k ==> End(h.size, p) < h.ring[j];
    }
    assert End(h.size, h.ring[0]) < p;
  }

  lemma TakenWholeLinked(ptr: map<nat, nat>, ring: seq<nat>, k: nat)
    requires Linked(ptr, ring) && 0 < k < |ring| && forall i, j :: 0 <= i < j < |ring| ==> ring[i] < ring[j]
    ensures Linked(ptr[ring[k - 1] := Get(ptr, ring[k])], ring[..k] + ring[k + 1..])
  {
    var ptr', ring' := ptr[ring[k - 1] := Get(ptr, ring[k])], ring[..k] + ring[k + 1..];
    forall i | 0 <= i < |ring'|
      ensures Get(ptr', ring'[i]) == NextIn(ring', i)
    {
      var j := if i < k then i else i + 1;
      assert ring'[i] == ring[j] && ring'[0] == ring[0];
      assert Get(ptr, ring[j]) == NextIn(ring, j) && Get(ptr, ring[k]) == NextIn(ring, k);
      assert i + 1 < |ring'| ==> ring'[i + 1] == ring[if i + 1 < k then i + 1 else i + 2];
    }
  }

  lemma TailSizes(h: Heap, k: nat, n: nat)
    requires HeapInv(h) && Fits(h, k, n) && 0 < k && 0 < n < Get(h.size, h.ring[k])
    ensures var size' := Taken(h, k, n).size;
            && Get(size', h.ring[k]) + n == Get(h.size, h.ring[k])
            && (forall i :: 0 <= i < |h.ring| && i != k ==> Get(size', h.ring[i]) == Get(h.size, h.ring[i]))
            && Ordered(h.base, size', h.ring)
  {
    var p, q := h.ring[k], TakenAt(h, k, n);
    forall i | 0 <= i < |h.ring|
      ensures h.ring[i] != q && (i != k ==> h.ring[i] != p)
    {
      assert i < k ==> End(h.size, h.ring[i]) < p;
      assert i > k ==> End(h.size, p) < h.ring[i];
    }
  }

  lemma TakenTail(h: Heap, k: nat, n: nat)
    requires HeapInv(h) && Fits(h, k, n) && 0 < k && 0 < n < Get(h.size, h.ring[k])
    ensures HeapInv(Taken(h, k, n)) && TakenAt(h, k, n) !in h.live
  {
    var q, h' := TakenAt(h, k, n), Taken(h, k, n);
    if q in h.live {
      TailApart(h, k, n, q);
    }
    LiveUnitsAdd(h.live, q, n);
    TailSizes(h, k, n);
    TailCounts(h.size, h'.size, h.ring, k, n);
    TakenTailLive(h, k, n);
  }

  lemma TailDisjoint(live: map<nat, nat>, p: nat, q: nat, n: nat)
    requires LiveDisjoint(live) && p < q && forall a :: a in live ==> live[a] > 0 && (a + live[a] <= p || q + n <= a)
    ensures LiveDisjoint(live[q := n])
  {
  }

  lemma TailApart(h: Heap, k: nat, n: nat, a: nat)
    requires HeapInv(h) && Fits(h, k, n) && 0 < k && 0 < n < Get(h.size, h.ring[k]) && a in h.live
    ensures h.live[a] > 0 && (a + h.live[a] <= h.ring[k] || TakenAt(h, k, n) + n <= a)
  {
  }

  lemma TailSized(h: Heap, k: nat, n: nat)
    requires HeapInv(h) && Fits(h, k, n) && 0 < k && 0 < n < Get(h.size, h.ring[k])
    ensures LiveSized(h.base, Taken(h, k, n).size, h.live[TakenAt(h, k, n) := n])
  {
    assert End(h.size, h.ring[0]) < h.ring[k];
    forall a | a in h.live
      ensures a != h.ring[k] && a != TakenAt(h, k, n)
    {
      TailApart(h, k, n, a);
    }
  }

  lemma TakenTailLive(h: Heap, k: nat, n: nat)
    requires HeapInv(h) && Fits(h, k, n) && 0 < k && 0 < n < Get(h.size, h.ring[k])
    ensures LiveApart(h.base, Taken(h, k, n).size, h.ring, h.live[TakenAt(h, k, n) := n])
  {
    forall a | a in h.live
      ensures h.live[a] > 0 && (a + h.live[a] <= h.ring[k] || TakenAt(h, k, n) + n <= a)
    {
      TailApart(h, k, n, a);
    }
    TailDisjoint(h.live, h.ring[k], TakenAt(h, k, n), n);
    TailSized(h, k, n);
    var live' := h.live[TakenAt(h, k, n) := n];
    forall a, i | a in live' && 1 <= i < |h.ring|
      ensures a + live'[a] <= h.ring[i] || End(Taken(h, k, n).size, h.ring[i]) <= a
    {
      TailFreeApart(h, k, n, a, i);
    }
  }

  lemma TailFreeApart(h: Heap, k: nat, n: nat, a: nat, i: nat)
    requires HeapInv(h) && Fits(h, k, n) && 0 < k && 0 < n < Get(h.size, h.ring[k]) && 1 <= i < |h.ring|
    requires a in h.live[TakenAt(h, k, n) := n]
    ensures a + h.live[TakenAt(h, k, n) := n][a] <= h.ring[i] || End(Taken(h, k, n).size, h.ring[i]) <= a
  {
    assert i < k ==> End(h.size, h.ring[i]) < h.ring[k];
    assert i > k ==> End(h.size, h.ring[k]) < h.ring[i];
  }

  lemma TailCounts(size: map<nat, nat>, size': map<nat, nat>, ring: seq<nat>, k: nat, n: nat)
    requires k < |ring| && Get(size', ring[k]) + n == Get(size, ring[k])
    requires forall i :: 0 <= i < |ring| && i != k ==> Get(size', ring[i]) == Get(size, ring[i])
    ensures FreeUnits(size', ring) + n == FreeUnits(size, ring)
  {
    var s, rest := ring[..k], ring[k + 1..];
    assert ring == s + [ring[k]] + [] + rest;
    SplitCounts(size, s, ring[k], [], rest);
    SplitCounts(size', s, ring[k], [], rest);
    FreeUnitsFrame(size, size', s);
    FreeUnitsFrame(size, size', rest);
  }

  /** malloc keeps everything, and what it returns is a new live block of exactly `n` units. */
  lemma TakenKeepsInv(h: Heap, k: nat, n: nat)
    requires HeapInv(h) && Fits(h, k, n) && n > 0
    ensures k > 0 && HeapInv(Taken(h, k, n)) && TakenAt(h, k, n) !in h.live
    ensures Taken(h, k, n).live == h.live[TakenAt(h, k, n) := n]
  {
    hide HeapInv;
    BaseIsEmpty(h);
    if Get(h.size, h.ring[k]) == n {
      TakenWhole(h, k, n);
    } else {
      TakenTail(h, k, n);
    }
  }

  lemma BaseIsEmpty(h: Heap)
    requires HeapInv(h)
    ensures |h.ring| > 0 && Get(h.size, h.ring[0]) == 0
  {
  }

  // ---- New regions ----

  /** A region sbrk may return: above base and apart from everything handed out before. */
  ghost predicate Fresh(h: Heap, hp: nat, n: nat) {
    && hp > h.base && n > 0
    && (forall a :: a in h.live ==> hp + n <= a || a + h.live[a] <= hp)
    && (forall i :: 1 <= i < |h.ring| ==> hp + n <= h.ring[i] || End(h.size, h.ring[i]) <= hp)
  }

  /** morecore writes the size of the region and frees it like any live block. */
  ghost function Grown(h: Heap, hp: nat, n: nat): Heap {
    h.(size := h.size[hp := n], live := h.live[hp := n], total := h.total + n)
  }

  lemma GrownKeepsInv(h: Heap, hp: nat, n: nat)
    requires HeapInv(h) && Fresh(h, hp, n)
    ensures HeapInv(Grown(h, hp, n))
  {
    assert hp !in h.live;
    LiveUnitsAdd(h.live, hp, n);
    GrownSizes(h, hp, n);
    FreeUnitsFrame(h.size, h.size[hp := n], h.ring);
    GrownLive(h, hp, n);
  }

  lemma GrownSizes(h: Heap, hp: nat, n: nat)
    requires HeapInv(h) && Fresh(h, hp, n)
    ensures forall i :: 0 <= i < |h.ring| ==>
              h.ring[i] != hp && Get(h.size[hp := n], h.ring[i]) == Get(h.size, h.ring[i])
    ensures Ordered(h.base, h.size[hp := n], h.ring)
  {
    forall i | 0 <= i < |h.ring|
      ensures h.ring[i] != hp
    {
      if i > 0 { assert Get(h.size, h.ring[i]) > 0; }
    }
  }

  lemma GrownLive(h: Heap, hp: nat, n: nat)
    requires HeapInv(h) && Fresh(h, hp, n)
    ensures LiveApart(h.base, h.size[hp := n], h.ring, h.live[hp := n])
  {
    GrownSizes(h, hp, n);
    var size', live' := h.size[hp := n], h.live[hp := n];
    forall a, i | a in live' && 1 <= i < |h.ring|
      ensures a + live'[a] <= h.ring[i] || End(size', h.ring[i]) <= a
    {
      assert End(size', h.ring[i]) == End(h.size, h.ring[i]);
    }
    forall a, b | a in live' && b in live' && a < b
      ensures a + live'[a] <= b
    {
    }
  }

  /** Once a block of at least `n` units is freed, some free block serves `n` units. */
  lemma FreedFits(h: Heap, bp: nat, n: nat) returns (k: nat)
    requires HeapInv(h) && bp in h.live && h.live[bp] >= n
    ensures Fits(Freed(h, bp), k, n)
  {
    LiveIsInsertable(h, bp);
    var t := Before(h.ring, bp);
    InsertedAt(h.size, h.ring, t, bp);
    k := if MeetsPrevious(h.size, h.ring, t, bp) then t else t + 1;
    assert Freed(h, bp).ring[k] == if MeetsPrevious(h.size, h.ring, t, bp) then h.ring[t] else bp;
  }
}
