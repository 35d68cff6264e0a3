/**
 * kalloc.c and vm.c: the free list threaded through the free frames, and the loops that map and unmap
 * user pages. Virtual addresses are unsigned 32-bit values; frames are numbered by physical address / 4096.
 */
module VirtualMemory {
  import opened Blocks
  import opened Options
  import opened LinkedLists
  import opened PageTable
  import opened AddressSpace

  const UINT := 0x1_0000_0000

  /** PGROUNDUP and PGROUNDDOWN, as page numbers; the first wraps as the 32-bit sum does. */
  function RoundUp(a: word): nat {
    (a + PGSIZE - 1) % UINT / PGSIZE
  }

  function RoundDown(a: word): nat {
    a / PGSIZE
  }

  /** The pages a loop `for (; a < sz; a += PGSIZE)` visits end here. */
  function PagesOf(sz: word): nat {
    if sz % PGSIZE == 0 then sz / PGSIZE else sz / PGSIZE + 1
  }

  ghost predicate FreeList(freelist: Option<nat>, next: Links, m: Mem) {
    freelist == Head(m.free) && Chain(next, m.free) && |next| == |m.use|
  }

  class Vm {
    var freelist: Option<nat>
    var next: Links
    var pgdir: seq<word>
    var pages: seq<seq<word>>
    const shm: seq<nat>                 // the frames in shm_infos
    ghost var use: seq<Use>
    ghost var free: seq<nat>

    ghost function View(): Mem
      reads this
    {
      Mem(pgdir, pages, use, free)
    }

    ghost predicate Valid()
      reads this
    {
      && Sound(View()) && FreeList(freelist, next, View())
      && (forall f: nat {:trigger use[f]} :: f < |use| ==> (use[f] == Shared <==> f in shm))
    }

    /** kfree pushes the frame on the free list. */
    method Kfree(f: nat)
      requires FreeFrames(use, free) && FreeList(freelist, next, View()) && f < |use| && use[f] != Free &&
               use[f] != Other
      modifies `freelist, `next, `use, `free
      ensures View() == Returned(old(View()), f)
      ensures FreeFrames(use, free) && FreeList(freelist, next, View())
    {
      ReturnKeepsFree(use, free, f);
      Prepended(next, free, f);
      next := next[f := freelist];
      freelist := Some(f);
      use := use[f := Free];
      free := [f] + free;
    }

    /** kalloc pops it, or finds it empty. */
    method Kalloc() returns (r: Option<nat>)
      requires Framed(View()) && FreeList(freelist, next, View())
      modifies `freelist, `use, `free
      ensures Framed(View()) && FreeList(freelist, next, View())
      ensures r == Head(old(free))
      ensures r == None ==> View() == old(View())
      ensures r != None ==> r.value < |use| && old(use)[r.value] == Free && View() == Taken(old(View()))
    {
      r := freelist;
      if r != None {
        TakenIsFramed(View());
        PoppedChain(next, free);
        freelist := next[r.value];
        use := use[r.value := Held];
        free := free[1..];
      }
    }

    /** walkpgdir up to the point where a table would be allocated. */
    method Lookup(v: nat) returns (t: Option<nat>)
      requires Framed(View()) && v < PAGES
      ensures t == if HasTable(View(), v) then Some(FrameOf(pgdir[v / ENTRIES])) else None
    {
      PageParts(v, v);
      return if Present(pgdir[v / ENTRIES]) then Some(FrameOf(pgdir[v / ENTRIES])) else None;
    }

    /** walkpgdir with alloc set: the frame of the table that holds page v's entry. */
    method Walk(v: nat) returns (t: Option<nat>)
      requires Framed(View()) && FreeList(freelist, next, View()) && v < PAGES
      modifies `freelist, `use, `free, `pgdir, `pages
      ensures Framed(View()) && FreeList(freelist, next, View())
      ensures Bounded(old(View())) && v / ENTRIES < ENTRIES && View() == Walked(old(View()), v)
      ensures t == if HasTable(View(), v) then Some(FrameOf(pgdir[v / ENTRIES])) else None
    {
      SoundIsBounded(View());
      PageParts(v, v);
      t := Lookup(v);
      if t != None {
        return;
      }
      ghost var m := View();
      if m.free != [] {
        WithTableIsFramed(m, v / ENTRIES);
      }
      t := Kalloc();
      if t == None {
        return;
      }
      pages := pages[t.value := ZeroPage()];
      pgdir := pgdir[v / ENTRIES := Entry(t.value, FLAGS)];
      use := use[t.value := Table(v / ENTRIES)];
      assert View() == WithTable(m, v / ENTRIES);
    }

    // ---- deallocuvm ----

    /** The search through shm_infos. */
    method IsShared(f: nat) returns (found: bool)
      ensures found <==> f in shm
    {
      for j := 0 to |shm|
        invariant f !in shm[..j]
      {
        if shm[j] == f {
          return true;
        }
      }
      assert shm[..|shm|] == shm;
      return false;
    }

    /** The body of deallocuvm's loop where page v has a table. */
    method Release(v: nat, t: nat)
      requires Valid() && v < USER_PAGES && HasTable(View(), v) && t == FrameOf(pgdir[v / ENTRIES])
      modifies `freelist, `next, `use, `free, `pages
      ensures Valid() && View() == Unmap(old(View()), v)
    {
      ghost var m := View();
      UnmapIsSound(m, v);
      assert TableAt(pgdir, pages, use, v / ENTRIES) by { PageParts(v, v); }
      assert UserAt(pgdir, pages, use, v);
      var e := pages[t][v % ENTRIES];
      if Present(e) {
        var f := FrameOf(e);
        assert f != 0;
        var found := IsShared(f);
        if !found {
          Kfree(f);
        }
        pages := pages[t := SetEntry(pages[t], v % ENTRIES, 0)];
      }
      assert View() == Unmap(m, v);
    }

    /** One turn of the loop at address a, which is page v, up to the next address to visit. */
    method Turn(a: word, v: nat, ghost hi: nat) returns (a': word, ghost v': nat)
      requires Valid() && a == v * PGSIZE && v < USER_PAGES && v < hi
      modifies `freelist, `next, `use, `free, `pages
      ensures Valid() && v < v' <= USER_PAGES && a' == v' * PGSIZE
      ensures Unmapped(old(View()), v, hi) == Unmapped(View(), v', hi)
    {
      NextAddress(v);
      UnmappedOne(View(), v, hi);
      hide Sound, FreeList, Unmapped, Unmap;
      var t := Lookup(v);
      if t == None {
        v' := TableEnd(v);
        SkipTable(View(), v, hi);
        a' := Wrap(PgAddr(v / ENTRIES + 1) - PGSIZE);
      } else {
        v' := v + 1;
        Release(v, t.value);
        a' := a;
      }
      a' := Wrap(a' + PGSIZE);
    }

    /**
     * deallocuvm: every page from PGROUNDUP(newsz) below oldsz is unmapped and its frame freed, although the
     * loop jumps over absent page tables.
     */
    method DeallocUvm(oldsz: word, newsz: word) returns (r: word)
      requires Valid() && oldsz <= KERNBASE
      modifies `freelist, `next, `use, `free, `pages
      ensures Valid() && r == if newsz < oldsz then newsz else oldsz
      ensures View() == if newsz < oldsz then Unmapped(old(View()), RoundUp(newsz), PagesOf(oldsz)) else old(View())
    {
      if newsz >= oldsz {
        return oldsz;
      }
      ghost var m0, lo, hi := View(), RoundUp(newsz), PagesOf(oldsz);
      SizeBounds(newsz, oldsz);
      var a: word := RoundUp(newsz) * PGSIZE;
      ghost var v := lo;
      hide Unmapped, Sound, FreeList, PagesOf, RoundUp, RoundDown;
      while a < oldsz
        invariant Valid() && a == v * PGSIZE && v <= USER_PAGES
        invariant Unmapped(m0, lo, hi) == Unmapped(View(), v, hi)
        decreases USER_PAGES - v
      {
        BelowSize(v, oldsz);
        PageOf(v);
        a, v := Turn(a, RoundDown(a), hi);
      }
      BelowSize(v, oldsz);
      UnmappedNone(View(), v, hi);
      return newsz;
    }

    // ---- mappages ----

    /** The body of mappages' loop. */
    method MapOne(v: nat, e: word) returns (r: MapResult)
      requires Framed(View()) && FreeList(freelist, next, View()) && v < PAGES
      modifies `freelist, `use, `free, `pgdir, `pages
      ensures Framed(View()) && FreeList(freelist, next, View()) && Bounded(old(View())) && v / ENTRIES < ENTRIES
      ensures (View(), r) == MapStep(old(View()), v, e)
    {
      ghost var m := View();
      MapStepIsFramed(m, v, e);
      var t := Walk(v);
      if t == None {
        return NoMemory;
      }
      TableHolds(View(), v);
      hide Framed;
      if Present(pages[t.value][v % ENTRIES]) {
        return Remap;
      }
      pages := pages[t.value := SetEntry(pages[t.value], v % ENTRIES, e)];
      return Mapped;
    }

    /**
     * mappages: the loop compares before it increments, so it also ends for a range up to the top of the
     * address space.
     */
    method MapPages(va: word, size: word, pa: word, perm: nat) returns (r: MapResult)
      requires Framed(View()) && FreeList(freelist, next, View()) && 0 < size && va + size <= UINT && perm < PGSIZE
      requires pa % PGSIZE == 0 && RoundDown(pa) + (RoundDown(va + size - 1) - RoundDown(va)) < PAGES
      modifies `freelist, `use, `free, `pgdir, `pages
      ensures Framed(View()) && FreeList(freelist, next, View()) && RoundDown(va) <= RoundDown(va + size - 1) < PAGES
      ensures (View(), r) ==
                MapRange(old(View()), RoundDown(va), RoundDown(va + size - 1), RoundDown(pa), WithPresent(perm))
    {
      RangeBounds(va, size, pa);
      var first, last := RoundDown(va), RoundDown(Wrap(va + size - 1));
      hide RoundDown, WithPresent, MapRange, Framed, FreeList;
      r := MapLoop(first * PGSIZE, last * PGSIZE, pa, WithPresent(perm), first, last, RoundDown(pa));
    }

    /** The loop: `a` goes from page first to page last, and `pa` from frame on, both as 32-bit addresses. */
    method MapLoop(a0: word, last: word, pa0: word, flags: nat, ghost first: nat, ghost end: nat, ghost frame: nat)
      returns (r: MapResult)
      requires FreeList(freelist, next, View()) && Mappable(View(), first, end, frame, flags)
      requires a0 == first * PGSIZE && last == end * PGSIZE && pa0 == frame * PGSIZE
      modifies `freelist, `use, `free, `pgdir, `pages
      ensures Framed(View()) && FreeList(freelist, next, View())
      ensures (View(), r) == MapRange(old(View()), first, end, frame, flags)
    {
      ghost var m0 := View();
      var a, pa := a0, pa0;
      ghost var v: nat, f: nat := first, frame;
      hide Framed, FreeList, MapStep, MapRange, RoundDown, Wrap;
      while true
        invariant a == v * PGSIZE && pa == f * PGSIZE
        invariant FreeList(freelist, next, View()) && Mappable(View(), v, end, f, flags)
        invariant MapRange(m0, first, end, frame, flags) == MapRange(View(), v, end, f, flags)
        decreases end - v
      {
        MapTurn(View(), v, end, f, flags);
        MapAddress(v, end, f, flags);
        r := MapOne(RoundDown(a), pa + flags);
        if r != Mapped || a == last {
          return;
        }
        a := Wrap(a + PGSIZE);
        pa := Wrap(pa + PGSIZE);
        v, f := v + 1, f + 1;
      }
    }

    // ---- allocuvm ----

    /** mappages of one page v to the frame f that kalloc returned. */
    method MapFrame(v: nat, f: nat) returns (r: MapResult)
      requires Framed(View()) && FreeList(freelist, next, View()) && v < USER_PAGES && f < |use|
      modifies `freelist, `use, `free, `pgdir, `pages
      ensures Bounded(old(View())) && v / ENTRIES < ENTRIES && |use| == old(|use|) <= PAGES
      ensures var w := Walked(old(View()), v);
              && f < |w.use| && r == (if !HasTable(w, v) then NoMemory else if Present(At(w, v)) then Remap else Mapped)
              && View() == if r == Mapped then Placed(w, v, f) else w
      ensures freelist == Head(free) && Chain(next, free)
    {
      ghost var m := View();
      SoundIsBounded(m);
      WalkedIsFramed(m, v);
      OnePage(v, f);
      MapTurn(m, v, v, f, FLAGS);
      hide Framed, MapRange, Walked;
      r := MapPages(v * PGSIZE, PGSIZE, f * PGSIZE, FLAGS - 1);
      if r == Mapped {
        use := use[f := User(v)];
      }
    }

    /** One turn of allocuvm's loop at page v: a frame is taken and mapped, or what failed is reported. */
    method GrowPage(v: nat) returns (out: Outcome)
      requires Valid() && v < USER_PAGES
      modifies `freelist, `use, `free, `pgdir, `pages
      ensures Valid() && Bounded(old(View())) && out == TurnOutcome(old(View()), v)
      ensures View() == TurnState(old(View()), v)
    {
      ghost var m := View();
      SoundIsBounded(m);
      TurnIsSound(m, v, shm);
      var mem := Kalloc();
      if mem == None {
        return NoFrame;
      }
      hide Sound, Walked, Placed, Chain;
      var r := MapFrame(v, mem.value);
      return if r == Mapped then Done else if r == NoMemory then NoTable(mem.value) else Remapped(mem.value);
    }

    ghost predicate Growing(v: nat, hi: nat)
      reads this
    {
      Valid() && v <= hi <= USER_PAGES && Bounded(View())
    }

    /** The same turn in terms of Grow. */
    method GrowNext(v: nat, ghost hi: nat) returns (out: Outcome)
      requires Growing(v, hi) && v < hi
      modifies `freelist, `use, `free, `pgdir, `pages
      ensures Valid() && (out == Done ==> Growing(v + 1, hi))
      ensures Grow(old(View()), v, hi) == if out == Done then Grow(View(), v + 1, hi) else Growth(View(), out)
    {
      ghost var m := View();
      hide Sound, FreeList, Grow, TurnOutcome, TurnState;
      out := GrowPage(v);
      GrowStops(m, View(), v, hi, out);
    }

    /** The loop of allocuvm from page lo; it visits the pages below hi. */
    method GrowLoop(lo: nat, newsz: word, ghost hi: nat) returns (out: Outcome)
      requires Growing(lo, hi) && hi == PagesOf(newsz)
      modifies `freelist, `use, `free, `pgdir, `pages
      ensures Valid() && Growth(View(), out) == Grow(old(View()), lo, hi)
    {
      ghost var m0 := View();
      var v := lo;
      hide Valid, Grow, PagesOf, Bounded;
      while v * PGSIZE < newsz
        invariant Growing(v, hi) && Grow(m0, lo, hi) == Grow(View(), v, hi)
        decreases hi - v
      {
        BelowSize(v, newsz);
        out := GrowNext(v, hi);
        if out != Done {
          return;
        }
        v := v + 1;
      }
      BelowSize(v, newsz);
      GrowEnds(View(), v, hi);
      return Done;
    }

    /** allocuvm: what it maps and what it gives back are those of Grow and AfterGrow; None is its "remap" panic. */
    method AllocUvm(oldsz: word, newsz: word) returns (r: Option<word>)
      requires Valid()
      modifies `freelist, `next, `use, `free, `pgdir, `pages
      ensures Valid()
      ensures newsz >= KERNBASE ==> r == Some(0) && View() == old(View())
      ensures newsz < KERNBASE && newsz < oldsz ==> r == Some(oldsz) && View() == old(View())
      ensures oldsz <= newsz < KERNBASE ==>
                && Bounded(old(View())) && PagesOf(newsz) <= USER_PAGES
                && var g := Grow(old(View()), RoundUp(oldsz), PagesOf(newsz));
                   && View() == AfterGrow(g, RoundUp(oldsz), PagesOf(newsz))
                   && r == if g.out == Done then Some(newsz) else if g.out.Remapped? then None else Some(0)
    {
      if newsz >= KERNBASE {
        return Some(0);
      }
      if newsz < oldsz {
        return Some(oldsz);
      }
      ghost var m0 := View();
      SizeBounds(oldsz, newsz);
      SoundIsBounded(m0);
      var out := GrowLoop(RoundUp(oldsz), newsz, PagesOf(newsz));
      if out == Done {
        return Some(newsz);
      }
      if out.Remapped? {
        return None;
      }
      FailedFrame(m0, View(), out, oldsz, newsz);
      hide Sound, FreeList, Grow, Unmapped, RoundUp, PagesOf;
      var _ := DeallocUvm(newsz, oldsz);
      if out.NoTable? {
        GiveBack(out.f);
      }
      return Some(0);
    }

    /** kfree of a frame that was not mapped. */
    method GiveBack(f: nat)
      requires Valid() && f < |use| && use[f] == Held
      modifies `freelist, `next, `use, `free
      ensures Valid() && View() == Returned(old(View()), f)
    {
      ReturnedIsSound(View(), f);
      Kfree(f);
    }

    // ---- freevm and freerange ----

    /** The loop of freevm over the directory: every page table is freed. */
    method FreeTables(ghost m: Mem)
      requires Framed(m) && m == View() && FreeList(freelist, next, View())
      requires forall f: nat {:trigger use[f]} :: f < |use| ==> (use[f] == Shared <==> f in shm)
      modifies `freelist, `next, `use, `free
      ensures FreeFrames(use, free) && FreeList(freelist, next, View()) && |use| == |m.use|
      ensures forall f: nat :: f < |m.use| ==> use[f] == if m.use[f].Table? then Free else m.use[f]
    {
      var i := 0;
      while i < ENTRIES
        invariant i <= ENTRIES && pgdir == m.pgdir && |use| == |m.use|
        invariant FreeFrames(use, free) && FreeList(freelist, next, View())
        invariant forall f: nat {:trigger use[f]} :: f < |m.use| ==>
                    use[f] == if m.use[f].Table? && m.use[f].d < i then Free else m.use[f]
      {
        if Present(pgdir[i]) {
          assert TableAt(m.pgdir, m.pages, m.use, i);
          var t := FrameOf(pgdir[i]);
          var found := IsShared(t);
          assert m.use[t] == Table(i) && use[t] == Table(i);
          if !found {
            Kfree(t);
          }
        }
        i := i + 1;
      }
    }

    /** freevm: the frames of the user pages, of the page tables and of the directory are all free again. */
    method FreeVm(dir: nat)
      requires Valid() && dir < |use| && use[dir] == Directory
      modifies `freelist, `next, `use, `free, `pages
      ensures FreeFrames(use, free) && FreeList(freelist, next, View()) && |use| == old(|use|)
      ensures forall f: nat :: f < |use| ==>
                use[f] == if old(use)[f].User? || old(use)[f].Table? || f == dir then Free else old(use)[f]
    {
      ghost var m0 := View();
      WholeSpace(m0);
      hide Unmapped, RoundUp, PagesOf, FreeList, FreeFrames;
      var _ := DeallocUvm(KERNBASE, 0);
      ghost var m1 := View();
      FreeTables(m1);
      Kfree(dir);
      AllReturned(m0, m1, dir, use);
    }

    /** freerange: the whole frames between two addresses join the free list. */
    method FreeRange(vstart: word, vend: word)
      requires FreeFrames(use, free) && FreeList(freelist, next, View()) && vstart <= vend && vend / PGSIZE <= |use|
      requires forall f: nat :: RoundUp(vstart) <= f < vend / PGSIZE ==> use[f] == Held
      modifies `freelist, `next, `use, `free
      ensures FreeFrames(use, free) && FreeList(freelist, next, View()) && |use| == old(|use|)
      ensures forall f: nat :: f < |use| ==>
                use[f] == if RoundUp(vstart) <= f < vend / PGSIZE then Free else old(use)[f]
    {
      var p := RoundUp(vstart);
      ghost var lo, was := p, use;
      while p * PGSIZE + PGSIZE <= vend
        invariant lo <= p && |use| == |was| && FreeFrames(use, free) && FreeList(freelist, next, View())
        invariant forall f: nat {:trigger use[f]} :: f < |was| ==> use[f] == if lo <= f < p then Free else was[f]
        invariant p == lo || p <= vend / PGSIZE
        decreases vend - p * PGSIZE
      {
        WholeFrame(p, vend);
        Kfree(p);
        p := p + 1;
      }
      WholeFrame(p, vend);
    }
  }

  lemma WholeSpace(m: Mem)
    requires Sound(m)
    ensures var m1 := Unmapped(m, RoundUp(0), PagesOf(KERNBASE));
            && |m1.use| == |m.use|
            && forall f: nat :: f < |m.use| ==>
               m1.use[f] == if m.use[f].User? && m.use[f].v < USER_PAGES then Free else m.use[f]
  {
    assert RoundUp(0) == 0 && PagesOf(KERNBASE) == USER_PAGES;
    UnmappedEffect(m, 0, USER_PAGES);
  }

  lemma WholeFrame(p: nat, vend: word)
    ensures p * PGSIZE + PGSIZE <= vend <==> p < vend / PGSIZE
  {
  }

  /** Nothing of the address space is left in use. */
  lemma AllReturned(m0: Mem, m1: Mem, dir: nat, use: seq<Use>)
    requires Sound(m0) && |use| == |m1.use| == |m0.use| && dir < |m0.use| && m0.use[dir] == Directory
    requires forall f: nat :: f < |m0.use| ==>
               m1.use[f] == if m0.use[f].User? && m0.use[f].v < USER_PAGES then Free else m0.use[f]
    requires forall f: nat :: f < |m0.use| ==> use[f] == if m1.use[f].Table? || f == dir then Free else m1.use[f]
    ensures forall f: nat :: f < |use| ==>
              use[f] == if m0.use[f].User? || m0.use[f].Table? || f == dir then Free else m0.use[f]
  {
  }

  ghost function TurnOutcome(m: Mem, v: nat): Outcome
    requires Bounded(m) && v < USER_PAGES
  {
    if m.free == [] then NoFrame
    else
      var walked := Walked(Taken(m), v);
      if !HasTable(walked, v) then NoTable(m.free[0])
      else if Present(At(walked, v)) then Remapped(m.free[0]) else Done
  }

  ghost function TurnState(m: Mem, v: nat): Mem
    requires Bounded(m) && v < USER_PAGES
  {
    if m.free == [] then m else if TurnOutcome(m, v) == Done then GrownOne(m, v) else Walked(Taken(m), v)
  }

  lemma TurnIsSound(m: Mem, v: nat, shm: seq<nat>)
    requires Sound(m) && Bounded(m) && v < USER_PAGES
    requires forall f: nat {:trigger m.use[f]} :: f < |m.use| ==> (m.use[f] == Shared <==> f in shm)
    ensures var m' := TurnState(m, v);
            && Sound(m') && |m'.use| == |m.use|
            && forall f: nat {:trigger m'.use[f]} :: f < |m.use| ==> (m'.use[f] == Shared <==> f in shm)
  {
    if m.free != [] {
      GrowStart(m, v);
      var held, walked, m' := Taken(m), Walked(Taken(m), v), TurnState(m, v);
      if TurnOutcome(m, v) == Done {
        GrowOne(m, v);
      }
      hide Sound, Walked;
      forall f: nat {:trigger m'.use[f]} | f < |m.use|
        ensures m'.use[f] == Shared <==> f in shm
      {
        assert m.use[f] == Shared <==> f in shm;
        assert UseGrew(held, walked, v, v, f);
      }
    }
  }

  lemma GrowEnds(m: Mem, v: nat, hi: nat)
    requires Bounded(m) && hi <= USER_PAGES && hi <= v
    ensures Grow(m, v, hi) == Growth(m, Done)
  {
  }

  /** What one turn means for the rest of the loop. */
  lemma GrowStops(m: Mem, m': Mem, v: nat, hi: nat, out: Outcome)
    requires Sound(m) && Bounded(m) && Sound(m') && v < hi <= USER_PAGES
    requires out == TurnOutcome(m, v) && m' == TurnState(m, v)
    ensures out != Done ==> Grow(m, v, hi) == Growth(m', out)
    ensures out == Done ==> Bounded(m') && Grow(m, v, hi) == Grow(m', v + 1, hi)
  {
    SoundIsBounded(m');
    hide Sound, Walked, Placed;
  }

  /** When the loop fails there are pages to unmap, and the frame it could not map is still held afterwards. */
  lemma FailedFrame(m: Mem, m': Mem, out: Outcome, oldsz: word, newsz: word)
    requires Sound(m) && Bounded(m) && oldsz <= newsz < KERNBASE && PagesOf(newsz) <= USER_PAGES
    requires out != Done && Growth(m', out) == Grow(m, RoundUp(oldsz), PagesOf(newsz))
    ensures oldsz < newsz
    ensures out.NoTable? ==> var c := Unmapped(m', RoundUp(oldsz), PagesOf(newsz));
            out.f < |c.use| && c.use[out.f] == Held
  {
    var lo, hi := RoundUp(oldsz), PagesOf(newsz);
    SizeBounds(oldsz, newsz);
    if oldsz == newsz {
      GrowEnds(m, lo, hi);
    } else {
      GrowIsSound(m, lo, hi);
      UnmappedEffect(m', lo, hi);
    }
  }

  /** A range of one page. */
  lemma OnePage(v: nat, f: nat)
    requires v < PAGES && f < PAGES
    ensures RoundDown(v * PGSIZE) == v && RoundDown(v * PGSIZE + PGSIZE - 1) == v && RoundDown(f * PGSIZE) == f
    ensures v * PGSIZE + PGSIZE <= UINT && WithPresent(FLAGS - 1) == FLAGS
  {
  }

  lemma RangeBounds(va: word, size: word, pa: word)
    requires 0 < size && va + size <= UINT
    ensures Wrap(va + size - 1) == va + size - 1 && RoundDown(va) <= RoundDown(va + size - 1) < PAGES
    ensures pa % PGSIZE == 0 ==> pa == RoundDown(pa) * PGSIZE
    ensures RoundDown(va) * PGSIZE < UINT && RoundDown(va + size - 1) * PGSIZE < UINT
  {
  }

  /** One turn of mappages: the entry it stores, the comparison and the two increments. */
  lemma MapAddress(v: nat, end: nat, f: nat, flags: nat)
    requires v <= end < PAGES && f + (end - v) < PAGES && flags < PGSIZE
    ensures RoundDown(v * PGSIZE) == v && f * PGSIZE + flags == Entry(f, flags)
    ensures v * PGSIZE == end * PGSIZE <==> v == end
    ensures v < end ==> Wrap(v * PGSIZE + PGSIZE) == (v + 1) * PGSIZE && Wrap(f * PGSIZE + PGSIZE) == (f + 1) * PGSIZE
  {
  }

  /** `perm | PTE_P` */
  function WithPresent(perm: nat): (r: nat)
    requires perm < PGSIZE
    ensures r < PGSIZE && r % 2 == 1
  {
    if perm % 2 == 1 then perm else perm + 1
  }

  lemma TableHolds(m: Mem, v: nat)
    requires Framed(m) && v < PAGES && HasTable(m, v)
    ensures var t := FrameOf(m.pgdir[v / ENTRIES]);
            t < |m.pages| && v % ENTRIES < |m.pages[t]| && m.pages[t][v % ENTRIES] == At(m, v)
  {
    PageParts(v, v);
    assert TableAt(m.pgdir, m.pages, m.use, v / ENTRIES);
  }

  function Wrap(x: int): word {
    x % UINT
  }

  /** PGADDR(d, 0, 0). */
  function PgAddr(d: nat): int {
    d * ENTRIES * PGSIZE
  }

  /** The first page of the table after that of page v. */
  function TableEnd(v: nat): nat {
    (v / ENTRIES + 1) * ENTRIES
  }

  /** The jump and the increment end at the next table; a plain increment at the next page. */
  lemma NextAddress(v: nat)
    requires v < USER_PAGES
    ensures v < TableEnd(v) <= USER_PAGES
    ensures Wrap(Wrap(PgAddr(v / ENTRIES + 1) - PGSIZE) + PGSIZE) == TableEnd(v) * PGSIZE
    ensures Wrap(v * PGSIZE + PGSIZE) == (v + 1) * PGSIZE
  {
  }

  lemma UnmappedOne(m: Mem, v: nat, hi: nat)
    requires v < hi
    ensures Unmapped(m, v, hi) == Unmapped(Unmap(m, v), v + 1, hi)
  {
  }

  lemma SkipTable(m: Mem, v: nat, hi: nat)
    requires !HasTable(m, v) && v < hi
    ensures Unmapped(m, v, hi) == Unmapped(m, TableEnd(v), hi)
  {
    forall u: nat | v <= u < TableEnd(v)
      ensures !HasTable(m, u)
    {
      assert u / ENTRIES == v / ENTRIES;
    }
    SkipAbsent(m, v, TableEnd(v), hi);
  }

  lemma UnmappedNone(m: Mem, a: nat, hi: nat)
    requires hi <= a
    ensures Unmapped(m, a, hi) == m
  {
  }

  lemma PageOf(v: nat)
    requires v < PAGES
    ensures RoundDown(v * PGSIZE) == v
  {
  }

  lemma BelowSize(v: nat, sz: word)
    ensures v * PGSIZE < sz <==> v < PagesOf(sz)
    ensures sz <= KERNBASE ==> PagesOf(sz) <= USER_PAGES
  {
  }

  lemma SizeBounds(newsz: word, oldsz: word)
    requires newsz <= oldsz <= KERNBASE
    ensures RoundUp(newsz) == PagesOf(newsz) <= PagesOf(oldsz) <= USER_PAGES && PagesOf(newsz) * PGSIZE < UINT
  {
  }

  lemma PoppedChain(next: Links, l: seq<nat>)
    requires Chain(next, l) && l != []
    ensures Chain(next, l[1..]) && next[l[0]] == Head(l[1..])
  {
    var l' := l[1..];
    forall k | 0 <= k < |l'|
      ensures l'[k] < |next| && next[l'[k]] == Head(l'[k + 1..])
    {
      assert l'[k] == l[k + 1] && l'[k + 1..] == l[k + 2..];
    }
  }
}
