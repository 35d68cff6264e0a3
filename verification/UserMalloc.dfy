/**
 * The code of umalloc.c over the heap of UserHeap. `free` and `malloc` walk the ring through `ptr`;
 * the region sbrk would return, if malloc comes to ask for one, is a parameter.
 */
module UserMalloc {
  import opened Options
  import opened UserHeap

  /** `(nbytes + sizeof(Header) - 1) / sizeof(Header) + 1` in 32-bit unsigned arithmetic. */
  function Units(nbytes: nat): (n: nat)
    ensures n > 0
  {
    (nbytes + HEADER_BYTES - 1) % UINT / HEADER_BYTES + 1
  }

  /** What morecore asks sbrk for. */
  function CoreUnits(n: nat): nat {
    if n < MIN_UNITS then MIN_UNITS else n
  }

  /**
   * A block of Units(nbytes) units has room for its header and nbytes more exactly when the rounding
   * does not wrap around; a request within 7 bytes of 2^32 gets a block with no room at all.
   */
  lemma LargeEnough(nbytes: nat)
    requires nbytes < UINT
    ensures (Units(nbytes) - 1) * HEADER_BYTES >= nbytes <==> nbytes <= UINT - HEADER_BYTES
    ensures nbytes > UINT - HEADER_BYTES ==> Units(nbytes) == 1
    ensures nbytes <= UINT - HEADER_BYTES ==> (Units(nbytes) - 1) * HEADER_BYTES < nbytes + HEADER_BYTES
  {
  }

  /** The `int` morecore hands to sbrk: a 32-bit product, read as signed. */
  function SbrkArgument(nbytes: nat): int {
    var product := CoreUnits(Units(nbytes)) * HEADER_BYTES % UINT;
    if product >= 0x8000_0000 then product - UINT else product
  }

  /**
   * sbrk is asked for the bytes of the block for requests up to 2^31 - 16 bytes, and for those so large that the
   * rounding wraps. In between it is asked to shrink the process, or, for the last eight sizes, for nothing.
   */
  lemma SbrkArgumentSign(nbytes: nat)
    requires nbytes < UINT
    ensures SbrkArgument(nbytes) > 0 <==> nbytes <= 0x8000_0000 - 16 || nbytes > UINT - HEADER_BYTES
    ensures SbrkArgument(nbytes) == 0 <==> UINT - 15 <= nbytes <= UINT - HEADER_BYTES
    ensures SbrkArgument(nbytes) > 0 <==> SbrkArgument(nbytes) == CoreUnits(Units(nbytes)) * HEADER_BYTES
  {
    var n := Units(nbytes);
    assert nbytes <= UINT - HEADER_BYTES ==> n == (nbytes + 7) / 8 + 1;
    assert nbytes > UINT - HEADER_BYTES ==> n == 1;
    assert CoreUnits(n) <= UINT / HEADER_BYTES;
  }

  /** Going round the ring from position `f`: position `j` has been visited once position `i` has. */
  predicate Visited(f: nat, i: nat, j: nat) {
    if f <= i then f < j <= i else j > f || j <= i
  }

  function Following(n: nat, i: nat): (k: nat)
    ensures n > 0 ==> k < n
  {
    if i + 1 < n then i + 1 else 0
  }

  /** How many blocks lie ahead, up to and including position `f`. */
  function StepsLeft(n: nat, f: nat, i: nat): int
    requires i < n
  {
    if i >= f then f + n - i else f - i
  }

  class Allocator {
    const base: nat
    var ptr: map<nat, nat>
    var size: map<nat, nat>
    var freep: Option<nat>
    ghost var ring: seq<nat>
    ghost var live: map<nat, nat>
    ghost var total: nat

    ghost function Repr(): Heap
      reads this
    {
      Heap(base, ptr, size, ring, live, total)
    }

    /** Before the first malloc there is no ring; afterwards `freep` is one of its headers. */
    ghost predicate Valid()
      reads this
    {
      && (freep.None? ==> live == map[] && total == 0 && size == map[])
      && (freep.Some? ==> HeapInv(Repr()) && freep.value in ring)
    }

    constructor (base: nat)
      ensures Valid() && this.base == base && freep == None
    {
      this.base := base;
      ptr, size, freep := map[], map[], None;
      ring, live, total := [], map[], 0;
    }

    /** The walk of free: the last free header below `bp`. */
    method FindPlace(bp: nat) returns (p: nat)
      requires Valid() && bp in live
      ensures p == ring[Before(ring, bp)]
    {
      hide HeapInv, Before;
      LiveAboveBase(Repr(), bp);
      p := freep.value;
      ghost var i :| 0 <= i < |ring| && ring[i] == p;
      ghost var t := Before(ring, bp);
      while !(bp > p && bp < Get(ptr, p))
        invariant 0 <= i < |ring| && ring[i] == p
        decreases if i <= t then t - i else t + |ring| - i
      {
        WalkStops(Repr(), bp, i);
        if p >= Get(ptr, p) && (bp > p || bp < Get(ptr, p)) {
          return;
        }
        p := Get(ptr, p);
        i := Following(|ring|, i);
      }
      WalkStops(Repr(), bp, i);
    }

    /** The stores of free once it has found its place after header `p`. */
    method Splice(bp: nat, p: nat, ghost t: nat)
      requires t < |ring| && p == ring[t] && bp > ring[0] && bp in size && bp != p &&
               (t + 1 < |ring| ==> ring[t + 1] != bp && ring[t + 1] != p)
      requires Get(ptr, p) == NextIn(ring, t)
      modifies this`ptr, this`size
      ensures ptr == InsertedLinks(old(ptr), old(size), ring, t, bp) && size == InsertedSizes(old(size), ring, t, bp)
    {
      if bp + Get(size, bp) == Get(ptr, p) {
        size := size[bp := Get(size, bp) + Get(size, Get(ptr, p))];
        ptr := ptr[bp := Get(ptr, Get(ptr, p))];
      } else {
        ptr := ptr[bp := Get(ptr, p)];
        assert size[bp := Get(size, bp)] == size;
      }
      if p + Get(size, p) == bp {
        size := size[p := Get(size, p) + Get(size, bp)];
        ptr := ptr[p := Get(ptr, bp)];
      } else {
        ptr := ptr[p := bp];
      }
    }

    /** free: the block returns to the ring, merged with the neighbours it touches. */
    method Free(bp: nat)
      requires Valid() && bp in live
      modifies this`ptr, this`size, this`freep, this`ring, this`live
      ensures Valid() && Repr() == Freed(old(Repr()), bp) && freep == Some(Below(old(ring), bp))
    {
      FreedKeepsInv(Repr(), bp);
      FreePlaceFacts(Repr(), bp);
      var p := FindPlace(bp);
      FreeAt(bp, p, FreePlace(Repr(), bp), Repr(), Freed(Repr(), bp));
    }

    method FreeAt(bp: nat, p: nat, ghost t: nat, ghost h: Heap, ghost h': Heap)
      requires Repr() == h && t < |ring| && p == ring[t] && bp > ring[0] && bp in size && bp != p
      requires (t + 1 < |ring| ==> ring[t + 1] != bp && ring[t + 1] != p) && Get(ptr, p) == NextIn(ring, t)
      requires h' ==
                 h.(ptr := InsertedLinks(h.ptr, h.size, h.ring, t, bp), size := InsertedSizes(h.size, h.ring, t, bp),
                        ring := Inserted(h.size, h.ring, t, bp), live := h.live - {bp})
      modifies this`ptr, this`size, this`freep, this`ring, this`live
      ensures Repr() == h' && freep == Some(p)
    {
      Splice(bp, p, t);
      freep := Some(p);
      live := live - {bp};
      ring := h'.ring;
    }

    /** The ring as malloc sees it: on the first call it makes `base` a ring of one empty block. */
    ghost function View(): Heap
      reads this
    {
      if freep.None? then Heap(base, map[base := base], map[base := 0], [base], map[], 0) else Repr()
    }

    method Start()
      requires Valid()
      modifies this`ptr, this`size, this`freep, this`ring
      ensures Valid() && Repr() == old(View()) && freep == if old(freep).None? then Some(base) else old(freep)
    {
      if freep.None? {
        ptr, size, freep := map[base := base], map[base := 0], Some(base);
        ring := [base];
        StartInv(base);
      }
    }

    /** malloc's stores for a block that fits: unlink it if it fits exactly, else cut its tail off. */
    method Cut(prevp: nat, p: nat, n: nat) returns (q: nat)
      requires Get(size, p) >= n
      modifies this`ptr, this`size
      ensures q == p + (Get(old(size), p) - n)
      ensures Get(old(size), p) == n ==> ptr == old(ptr)[prevp := Get(old(ptr), p)] && size == old(size)
      ensures Get(old(size), p) != n ==> ptr == old(ptr) && size == old(size)[p := Get(old(size), p) - n][q := n]
    {
      q := p;
      if Get(size, p) == n {
        ptr := ptr[prevp := Get(ptr, p)];
      } else {
        size := size[p := Get(size, p) - n];
        q := p + Get(size, p);
        size := size[q := n];
      }
    }

    /** malloc's branch for a block that fits, and its `freep = prevp`. */
    method Take(prevp: nat, p: nat, n: nat, ghost i: nat, ghost h: Heap) returns (q: nat)
      requires Repr() == h && HeapInv(h) && i < |h.ring| && prevp == h.ring[i] && p == h.ring[Following(|h.ring|, i)]
      requires Get(size, p) >= n > 0
      modifies this`ptr, this`size, this`freep, this`ring, this`live
      ensures Valid() && freep.Some? && q !in h.live && live == h.live[q := n]
      ensures Took(h, Following(|h.ring|, i), n, Repr(), q)
    {
      ghost var k := Following(|h.ring|, i);
      TakenKeepsInv(h, k, n);
      PreviousStays(h, k, n);
      q := TakeStores(prevp, p, n, k, h);
    }

    method TakeStores(prevp: nat, p: nat, n: nat, ghost k: nat, ghost h: Heap) returns (q: nat)
      requires Repr() == h && Fits(h, k, n) && k > 0 && p == h.ring[k] && prevp == h.ring[k - 1]
      modifies this`ptr, this`size, this`freep, this`ring, this`live
      ensures Took(h, k, n, Repr(), q) && freep == Some(prevp)
    {
      q := Cut(prevp, p, n);
      freep := Some(prevp);
      ring, live := Taken(h, k, n).ring, Taken(h, k, n).live;
    }

    /** morecore: false if sbrk fails; else the new region joins the ring. */
    method Morecore(n: nat, core: Option<nat>, ghost h: Heap) returns (ok: bool)
      requires freep.Some? && Repr() == h && HeapInv(h) && freep.value in ring
      requires core.Some? ==> Fresh(h, core.value, CoreUnits(n))
      modifies this`ptr, this`size, this`freep, this`ring, this`live, this`total
      ensures ok == core.Some? && freep.Some?
      ensures !ok ==> Repr() == h && freep == old(freep)
      ensures ok ==> && HeapInv(Grown(h, core.value, CoreUnits(n)))
                     && Repr() == Freed(Grown(h, core.value, CoreUnits(n)), core.value) && Valid()
                     && freep == Some(Below(h.ring, core.value))
    {
      if core.None? {
        return false;
      }
      var hp, nu := core.value, CoreUnits(n);
      GrownKeepsInv(h, hp, nu);
      AddRegion(hp, nu);
      assert Repr() == Grown(h, hp, nu);
      Free(hp);
      return true;
    }

    /**
     * malloc: first fit from the header after `freep`. It asks sbrk at most once, and only after every
     * free block proved too small, and then goes round again from the block below the new region. It
     * returns a fresh live block of Units(nbytes) units, or None, with the ring as it was, if nothing
     * fits and sbrk fails.
     */
    method Malloc(nbytes: nat, core: Option<nat>) returns (r: Option<nat>, ghost grew: bool)
      requires Valid() && nbytes < UINT
      requires core.Some? ==> Fresh(View(), core.value, CoreUnits(Units(nbytes)))
      modifies this`ptr, this`size, this`freep, this`ring, this`live, this`total
      ensures Valid()
      ensures r.Some? ==> r.value !in old(live) && live == old(live)[r.value := Units(nbytes)]
      ensures r.None? ==> Repr() == old(View()) && core.None?
      ensures total == old(total) + if grew then CoreUnits(Units(nbytes)) else 0
      ensures grew || r.None? ==> NoneFits(old(View()), Units(nbytes))
      ensures r.Some? && !grew ==>
                FirstFit(old(View()), if old(freep).None? then base
                  else old(freep).value, Units(nbytes), Repr(), r.value)
      ensures r.Some? && grew ==> CoreFit(old(View()), core, Units(nbytes), Repr(), r.value)
    {
      hide HeapInv, Fresh, NoneFits, FirstFit, CoreFit;
      Start();
      r, grew := Search(Units(nbytes), core, Repr());
    }

    /** The loop of malloc. */
    method Search(n: nat, core: Option<nat>, ghost h0: Heap) returns (r: Option<nat>, ghost grew: bool)
      requires freep.Some? && Repr() == h0 && HeapInv(h0) && freep.value in h0.ring && n > 0
      requires core.Some? ==> Fresh(h0, core.value, CoreUnits(n))
      modifies this`ptr, this`size, this`freep, this`ring, this`live, this`total
      ensures Valid()
      ensures r.Some? ==> r.value !in h0.live && live == h0.live[r.value := n]
      ensures r.None? ==> Repr() == h0 && freep == old(freep) && core.None?
      ensures total == h0.total + if grew then CoreUnits(n) else 0
      ensures grew || r.None? ==> NoneFits(h0, n)
      ensures r.Some? && !grew ==> FirstFit(h0, old(freep).value, n, Repr(), r.value)
      ensures r.Some? && grew ==> CoreFit(h0, core, n, Repr(), r.value)
    {
      hide HeapInv, Fresh, Took, FirstFit, CoreFit, ExtendedTo;
      ghost var h := h0;
      ghost var none, fit: nat := NoneFits(h, n), 0;
      var prevp := freep.value;
      ghost var f: nat :| f < |ring| && ring[f] == prevp;
      ghost var i: nat := f;
      LinkAt(h, i);
      var p := Get(ptr, prevp);
      grew := false;
      while true
        invariant freep.Some? && Repr() == h && HeapInv(h) && h.live == h0.live
        invariant h.total == h0.total + if grew then CoreUnits(n) else 0
        invariant Scanning(h, f, i, n) && freep.value == h.ring[f] && prevp == h.ring[i] &&
                  p == h.ring[Following(|h.ring|, i)]
        invariant if grew then none && core.Some? && Fits(h, fit, n) else none == NoneFits(h, n)
        invariant !grew && core.Some? ==> Fresh(h, core.value, CoreUnits(n))
        invariant grew ==> ExtendedTo(h0, core, n, h) && freep.value == Below(h0.ring, core.value)
        invariant !grew ==> h == h0 && freep == old(freep)
        decreases !grew, StepsLeft(|h.ring|, f, i)
      {
        ghost var k := Following(|h.ring|, i);
        if Get(size, p) >= n {
          var q := Take(prevp, p, n, i, h);
          FirstFitFound(h, f, i, n, Repr(), q);
          if grew { CoreFitFound(h0, core, n, h, Repr(), q); }
          return Some(q), grew;
        }
        ScanOne(h, f, i, n);
        if p == freep.value {
          assert !grew;
          var ok;
          ok, h, f, fit := Refill(n, core, h);
          if !ok {
            return None, false;
          }
          p := freep.value;
          grew, i := true, f;
        } else {
          i := k;
        }
        LinkAt(h, i);
        prevp := p;
        p := Get(ptr, p);
      }
    }

    /** morecore as malloc uses it: afterwards `freep` is in the ring and some block fits. */
    method Refill(n: nat, core: Option<nat>, ghost h: Heap)
      returns (ok: bool, ghost h': Heap, ghost f: nat, ghost fit: nat)
      requires freep.Some? && Repr() == h && HeapInv(h) && freep.value in ring
      requires core.Some? ==> Fresh(h, core.value, CoreUnits(n))
      modifies this`ptr, this`size, this`freep, this`ring, this`live, this`total
      ensures ok == core.Some? && freep.Some? && Repr() == h'
      ensures !ok ==> h' == h && freep == old(freep)
      ensures ok ==>
                HeapInv(h') && h'.live == h.live && h'.total == h.total + CoreUnits(n) && ExtendedTo(h, core, n, h')
      ensures ok ==> f < |h'.ring| && h'.ring[f] == freep.value == Below(h.ring, core.value) && Fits(h', fit, n)
    {
      ok := Morecore(n, core, h);
      h', f, fit := Repr(), 0, 0;
      if ok {
        fit := MorecoreFits(h, core.value, n);
        f :| f < |ring| && ring[f] == freep.value;
      }
    }

    method AddRegion(hp: nat, nu: nat)
      modifies this`size, this`live, this`total
      ensures size == old(size)[hp := nu] && live == old(live)[hp := nu] && total == old(total) + nu
    {
      size := size[hp := nu];
      live, total := live[hp := nu], total + nu;
    }
  }

  /** h' is h after morecore. */
  ghost predicate ExtendedTo(h: Heap, core: Option<nat>, n: nat, h': Heap) {
    && core.Some?
    && var g := Grown(h, core.value, CoreUnits(n));
       HeapInv(g) && core.value in g.live && h' == Freed(g, core.value)
  }

  /** n units were taken from free block k, at address q. */
  ghost predicate Took(h: Heap, k: nat, n: nat, h': Heap, q: nat) {
    k > 0 && Fits(h, k, n) && h' == Taken(h, k, n) && q == TakenAt(h, k, n)
  }

  /** They were taken from the first block that fits, going round from the one after `start`. */
  ghost predicate FirstFit(h: Heap, start: nat, n: nat, h': Heap, q: nat) {
    exists f: nat, i: nat :: Scanning(h, f, i, n) && h.ring[f] == start && Took(h, Following(|h.ring|, i), n, h', q)
  }

  /** They were taken, in the same way, from the heap with the new region in it, starting below that region. */
  ghost predicate CoreFit(h: Heap, core: Option<nat>, n: nat, h': Heap, q: nat) {
    exists h1: Heap :: ExtendedTo(h, core, n, h1) && FirstFit(h1, Below(h.ring, core.value), n, h', q)
  }

  lemma FirstFitFound(h: Heap, f: nat, i: nat, n: nat, h': Heap, q: nat)
    requires Scanning(h, f, i, n) && Took(h, Following(|h.ring|, i), n, h', q)
    ensures FirstFit(h, h.ring[f], n, h', q)
  {
  }

  lemma CoreFitFound(h: Heap, core: Option<nat>, n: nat, h1: Heap, h': Heap, q: nat)
    requires ExtendedTo(h, core, n, h1) && FirstFit(h1, Below(h.ring, core.value), n, h', q)
    ensures CoreFit(h, core, n, h', q)
  {
  }

  ghost predicate NoneFits(h: Heap, n: nat) {
    forall k :: 0 <= k < |h.ring| ==> !Fits(h, k, n)
  }

  /** The blocks between `f` and `i`, going round, are all too small. */
  ghost predicate Scanning(h: Heap, f: nat, i: nat, n: nat) {
    && f < |h.ring| && i < |h.ring|
    && forall j :: 0 <= j < |h.ring| && Visited(f, i, j) ==> !Fits(h, j, n)
  }

  lemma LinkAt(h: Heap, i: nat)
    requires HeapInv(h) && i < |h.ring|
    ensures Get(h.ptr, h.ring[i]) == h.ring[Following(|h.ring|, i)]
  {
    assert Get(h.ptr, h.ring[i]) == NextIn(h.ring, i);
  }

  /** One more block too small: the scan advances, or has been all the way round. */
  lemma ScanOne(h: Heap, f: nat, i: nat, n: nat)
    requires HeapInv(h) && Scanning(h, f, i, n) && !Fits(h, Following(|h.ring|, i), n)
    ensures var k := Following(|h.ring|, i);
            if h.ring[k] == h.ring[f] then NoneFits(h, n)
            else k < |h.ring| && Scanning(h, f, k, n) && 0 <= StepsLeft(|h.ring|, f, k) < StepsLeft(|h.ring|, f, i)
  {
    var k := Following(|h.ring|, i);
    assert k < f ==> End(h.size, h.ring[k]) < h.ring[f];
    assert k > f ==> End(h.size, h.ring[f]) < h.ring[k];
  }

  /** After morecore some block fits, and no live block has changed. */
  lemma MorecoreFits(h: Heap, hp: nat, n: nat) returns (k: nat)
    requires HeapInv(h) && Fresh(h, hp, CoreUnits(n)) && HeapInv(Grown(h, hp, CoreUnits(n)))
    ensures var h' := Freed(Grown(h, hp, CoreUnits(n)), hp);
            Fits(h', k, n) && h'.live == h.live && h'.total == h.total + CoreUnits(n)
  {
    hide HeapInv, Fresh, InsertedLinks, InsertedSizes, Inserted;
    FreshIsNotLive(h, hp, CoreUnits(n));
    k := FreedFits(Grown(h, hp, CoreUnits(n)), hp, n);
  }

  lemma FreshIsNotLive(h: Heap, hp: nat, n: nat)
    requires HeapInv(h) && Fresh(h, hp, n)
    ensures hp !in h.live
  {
  }

  lemma StartInv(base: nat)
    ensures HeapInv(Heap(base, map[base := base], map[base := 0], [base], map[], 0))
  {
    FreeUnitsOne(map[base := 0], base);
  }

  /** The header before the block malloc takes is still in the ring afterwards. */
  lemma PreviousStays(h: Heap, k: nat, n: nat)
    requires HeapInv(h) && Fits(h, k, n) && k > 0
    ensures h.ring[k - 1] in Taken(h, k, n).ring
  {
    assert Taken(h, k, n).ring[k - 1] == h.ring[k - 1];
  }

  /** What free may rely on at the place it finds. */
  lemma FreePlaceFacts(h: Heap, bp: nat)
    requires HeapInv(h) && bp in h.live
    ensures var t := FreePlace(h, bp); var ring := h.ring;
            && bp > ring[0] && bp in h.size && bp != ring[t]
            && (t + 1 < |ring| ==> ring[t + 1] != bp && ring[t + 1] != ring[t])
            && Get(h.ptr, ring[t]) == NextIn(ring, t) && ring[t] in Freed(h, bp).ring
  {
    LiveIsInsertable(h, bp);
    InsertDistinct(h.base, h.size, h.ring, bp);
    InsertedAt(h.size, h.ring, Before(h.ring, bp), bp);
    assert Freed(h, bp).ring[Before(h.ring, bp)] == h.ring[Before(h.ring, bp)];
  }

  ghost function FreePlace(h: Heap, bp: nat): (t: nat)
    requires HeapInv(h) && bp in h.live
    ensures t < |h.ring| && t == Before(h.ring, bp)
  {
    Before(h.ring, bp)
  }

  lemma LiveAboveBase(h: Heap, bp: nat)
    requires HeapInv(h) && bp in h.live
    ensures |h.ring| > 0 && h.ring[0] < bp
  {
  }

  /** The walk of free stops exactly at the last free header below `bp`. */
  lemma WalkStops(h: Heap, bp: nat, i: nat)
    requires HeapInv(h) && bp in h.live && i < |h.ring|
    ensures var p, next := h.ring[i], Get(h.ptr, h.ring[i]);
            && next == h.ring[Following(|h.ring|, i)]
            && (i == Before(h.ring, bp) <==> (bp > p && bp < next) || (p >= next && (bp > p || bp < next)))
  {
    LiveIsInsertable(h, bp);
    InsertDistinct(h.base, h.size, h.ring, bp);
    assert Get(h.ptr, h.ring[i]) == NextIn(h.ring, i);
    assert i > 0 ==> End(h.size, h.ring[0]) < h.ring[i];
    assert i + 1 < |h.ring| ==> End(h.size, h.ring[i]) < h.ring[i + 1];
  }
}
