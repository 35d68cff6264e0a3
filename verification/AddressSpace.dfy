/**
 * What growing and shrinking a process does to its page tables and to the free frames, page by page.
 * The loops of vm.c are proved against Grow and Unmapped.
 */
module AddressSpace {
  import opened Blocks
  import opened Sequences
  import opened PageTable

  /** The page tables, the use of each frame, and the free list from its head. */
  datatype Mem = Mem(pgdir: seq<word>, pages: seq<seq<word>>, use: seq<Use>, free: seq<nat>)

  function At(m: Mem, v: nat): word {
    Pte(m.pgdir, m.pages, v)
  }

  predicate HasTable(m: Mem, v: nat) {
    v / ENTRIES < |m.pgdir| && Present(m.pgdir[v / ENTRIES])
  }

  ghost predicate FreeFrames(use: seq<Use>, free: seq<nat>) {
    && Distinct(free)
    && (forall f :: f in free ==> f < |use|)
    && (forall f: nat {:trigger use[f]} :: f < |use| ==> (use[f] == Free <==> f in free))
    && 0 < |use| && use[0] == Other
  }

  ghost predicate Framed(m: Mem) {
    Tables(m.pgdir, m.pages, m.use) && FreeFrames(m.use, m.free)
  }

  ghost predicate Sound(m: Mem) {
    Framed(m) && Users(m.pgdir, m.pages, m.use)
  }

  // ---- kalloc and kfree ----

  function Taken(m: Mem): Mem
    requires m.free != [] && m.free[0] < |m.use|
  {
    Mem(m.pgdir, m.pages, m.use[m.free[0] := Held], m.free[1..])
  }

  function Returned(m: Mem, f: nat): Mem
    requires f < |m.use|
  {
    Mem(m.pgdir, m.pages, m.use[f := Free], [f] + m.free)
  }

  lemma UseKeepsUsers(pgdir: seq<word>, pages: seq<seq<word>>, use: seq<Use>, f: nat, u: Use)
    requires Users(pgdir, pages, use) && f < |use| && !use[f].User? && use[f] != Shared && !u.User?
    ensures Users(pgdir, pages, use[f := u])
  {
    var use' := use[f := u];
    forall v: nat | v < USER_PAGES
      ensures UserAt(pgdir, pages, use', v)
    {
      assert UserAt(pgdir, pages, use, v);
    }
  }

  lemma PopFree(use: seq<Use>, free: seq<nat>, u: Use)
    requires FreeFrames(use, free) && free != [] && u != Free
    ensures free[0] < |use| && use[free[0]] == Free && FreeFrames(use[free[0] := u], free[1..])
  {
    var f := free[0];
    assert f in free && use[f] == Free && use[0] == Other;
    var use', free' := use[f := u], free[1..];
    assert free == [f] + free';
    forall i | 0 <= i < |free'|
      ensures free'[i] != f
    {
      assert free'[i] == free[i + 1];
    }
    forall i, j | 0 <= i < j < |free'|
      ensures free'[i] != free'[j]
    {
      assert free'[i] == free[i + 1] && free'[j] == free[j + 1];
    }
    forall g: nat {:trigger use'[g]} | g < |use'|
      ensures use'[g] == Free <==> g in free'
    {
      assert use[g] == Free <==> g in free;
    }
    assert forall g :: g in free' ==> g in free;
  }

  lemma TakenIsFramed(m: Mem)
    requires Framed(m) && m.free != []
    ensures m.free[0] < |m.use| && m.use[m.free[0]] == Free && Framed(Taken(m))
  {
    PopFree(m.use, m.free, Held);
    UseKeepsTables(m.pgdir, m.pages, m.use, m.free[0], Held);
  }

  lemma TakenIsSound(m: Mem)
    requires Sound(m) && m.free != []
    ensures m.free[0] < |m.use| && m.use[m.free[0]] == Free && Sound(Taken(m))
  {
    TakenIsFramed(m);
    UseKeepsUsers(m.pgdir, m.pages, m.use, m.free[0], Held);
  }

  lemma ReturnKeepsFree(use: seq<Use>, free: seq<nat>, f: nat)
    requires FreeFrames(use, free) && f < |use| && use[f] != Free && use[f] != Other
    ensures FreeFrames(use[f := Free], [f] + free)
  {
  }

  lemma ReturnedIsSound(m: Mem, f: nat)
    requires Sound(m) && f < |m.use| && m.use[f] == Held
    ensures Sound(Returned(m, f))
  {
    UseKeepsTables(m.pgdir, m.pages, m.use, f, Free);
    UseKeepsUsers(m.pgdir, m.pages, m.use, f, Free);
    ReturnKeepsFree(m.use, m.free, f);
  }

  // ---- walkpgdir ----

  function WithTable(m: Mem, d: nat): Mem
    requires d < |m.pgdir| && m.free != [] && m.free[0] < |m.use| == |m.pages| <= PAGES
  {
    var t := m.free[0];
    Mem(m.pgdir[d := Entry(t, FLAGS)], m.pages[t := ZeroPage()], m.use[t := Table(d)], m.free[1..])
  }

  /** walkpgdir with alloc set; it fails when page v still has no table. */
  function Walked(m: Mem, v: nat): Mem
    requires v / ENTRIES < |m.pgdir| && |m.use| == |m.pages| <= PAGES && (m.free != [] ==> m.free[0] < |m.use|)
  {
    if HasTable(m, v) || m.free == [] then m else WithTable(m, v / ENTRIES)
  }

  lemma WithTableIsFramed(m: Mem, d: nat)
    requires Framed(m) && m.free != [] && d < ENTRIES && !Present(m.pgdir[d])
    ensures m.free[0] < |m.use| && m.use[m.free[0]] == Free && Framed(WithTable(m, d))
    ensures forall v: nat :: v < PAGES ==> At(WithTable(m, d), v) == At(m, v)
  {
    PopFree(m.use, m.free, Table(d));
    var t, m' := m.free[0], WithTable(m, d);
    NewTableKeepsTables(m.pgdir, m.pages, m.use, d, t);
    forall v: nat | v < PAGES
      ensures At(m', v) == At(m, v)
    {
      NewTableChangesNone(m.pgdir, m.pages, m.use, d, t, v);
    }
  }

  lemma WithTableIsSound(m: Mem, d: nat)
    requires Sound(m) && m.free != [] && d < ENTRIES && !Present(m.pgdir[d])
    ensures m.free[0] < |m.use| && m.use[m.free[0]] == Free && Sound(WithTable(m, d))
    ensures forall v: nat :: v < PAGES ==> At(WithTable(m, d), v) == At(m, v)
  {
    WithTableIsFramed(m, d);
    var t, m' := m.free[0], WithTable(m, d);
    hide Framed;
    forall v: nat | v < USER_PAGES
      ensures UserAt(m'.pgdir, m'.pages, m'.use, v)
    {
      assert UserAt(m.pgdir, m.pages, m.use, v) && At(m', v) == At(m, v);
    }
    assert Users(m'.pgdir, m'.pages, m'.use) by {
      forall f: nat {:trigger m'.use[f]} | f < |m'.use| && m'.use[f].User?
        ensures m'.use[f].v < USER_PAGES && Present(At(m', m'.use[f].v)) && FrameOf(At(m', m'.use[f].v)) == f
      {
        assert m.use[f].User? && At(m', m.use[f].v) == At(m, m.use[f].v);
      }
    }
  }

  // ---- Mapping and unmapping one user page ----

  function Placed(m: Mem, v: nat, f: nat): Mem
    requires f < PAGES && f < |m.use|
  {
    Mem(m.pgdir, SetPte(m.pgdir, m.pages, v, Entry(f, FLAGS)), m.use[f := User(v)], m.free)
  }

  lemma PlacedIsSound(m: Mem, v: nat, f: nat)
    requires Sound(m) && v < USER_PAGES && HasTable(m, v) && !Present(At(m, v)) && f < |m.use| && m.use[f] == Held
    ensures f < PAGES && Sound(Placed(m, v, f))
    ensures forall u: nat :: u < PAGES ==> At(Placed(m, v, f), u) == if u == v then Entry(f, FLAGS) else At(m, u)
  {
    var m' := Placed(m, v, f);
    var w := Entry(f, FLAGS);
    forall u: nat | u < PAGES
      ensures At(m', u) == if u == v then w else At(m, u)
    {
      SetPteChangesOne(m.pgdir, m.pages, m.use, v, w, u);
    }
    SetPteKeepsTables(m.pgdir, m.pages, m.use, v, w);
    UseKeepsTables(m.pgdir, m'.pages, m.use, f, User(v));
    hide Tables;
    PlacedUsers(m, m', v, f);
  }

  lemma PlacedUsers(m: Mem, m': Mem, v: nat, f: nat)
    requires Users(m.pgdir, m.pages, m.use) && v < USER_PAGES && !Present(At(m, v)) && f < |m.use| <= PAGES &&
             m.use[f] == Held
    requires m'.use == m.use[f := User(v)]
    requires forall u: nat :: u < PAGES ==> At(m', u) == if u == v then Entry(f, FLAGS) else At(m, u)
    ensures Users(m'.pgdir, m'.pages, m'.use)
  {
    forall u: nat | u < USER_PAGES
      ensures UserAt(m'.pgdir, m'.pages, m'.use, u)
    {
      assert UserAt(m.pgdir, m.pages, m.use, u) && At(m', u) == if u == v then Entry(f, FLAGS) else At(m, u);
    }
    forall g: nat {:trigger m'.use[g]} | g < |m'.use| && m'.use[g].User?
      ensures m'.use[g].v < USER_PAGES && Present(At(m', m'.use[g].v)) && FrameOf(At(m', m'.use[g].v)) == g
    {
      if g != f {
        var u := m.use[g].v;
        assert At(m', u) == At(m, u);
      }
    }
  }

  /** One turn of deallocuvm's loop at page v: the frame is freed unless it is shared. */
  function Unmap(m: Mem, v: nat): Mem {
    var e := At(m, v);
    if !Present(e) then m
    else
      var cleared := Mem(m.pgdir, SetPte(m.pgdir, m.pages, v, 0), m.use, m.free);
      if FrameOf(e) < |m.use| && m.use[FrameOf(e)] != Shared then Returned(cleared, FrameOf(e)) else cleared
  }

  /** Unmapping frees the page's own frame, once, and touches nothing else. */
  lemma UnmapIsSound(m: Mem, v: nat)
    requires Sound(m) && v < USER_PAGES
    ensures Sound(Unmap(m, v)) && Unmap(m, v).pgdir == m.pgdir && |Unmap(m, v).use| == |m.use|
    ensures forall u: nat :: u < PAGES && u != v ==> At(Unmap(m, v), u) == At(m, u)
    ensures !Present(At(Unmap(m, v), v))
    ensures forall f: nat :: f < |m.use| ==> Unmap(m, v).use[f] == if m.use[f] == User(v) then Free else m.use[f]
  {
    var e, m' := At(m, v), Unmap(m, v);
    assert UserAt(m.pgdir, m.pages, m.use, v);
    if Present(e) {
      forall u: nat | u < PAGES
        ensures At(m', u) == if u == v then 0 else At(m, u)
      {
        SetPteChangesOne(m.pgdir, m.pages, m.use, v, 0, u);
      }
      SetPteKeepsTables(m.pgdir, m.pages, m.use, v, 0);
      var f := FrameOf(e);
      if m.use[f] != Shared {
        UseKeepsTables(m.pgdir, m'.pages, m.use, f, Free);
        ReturnKeepsFree(m.use, m.free, f);
      }
      UnmapUsers(m, m', v);
    }
  }

  lemma UnmapUsers(m: Mem, m': Mem, v: nat)
    requires Users(m.pgdir, m.pages, m.use) && v < USER_PAGES && Present(At(m, v)) && FrameOf(At(m, v)) < |m.use|
    requires m'.use == if m.use[FrameOf(At(m, v))] == Shared then m.use else m.use[FrameOf(At(m, v)) := Free]
    requires forall u: nat :: u < PAGES ==> At(m', u) == if u == v then 0 else At(m, u)
    ensures Users(m'.pgdir, m'.pages, m'.use)
    ensures forall f: nat :: f < |m.use| ==> m'.use[f] == if m.use[f] == User(v) then Free else m.use[f]
  {
    assert UserAt(m.pgdir, m.pages, m.use, v);
    forall u: nat | u < USER_PAGES
      ensures UserAt(m'.pgdir, m'.pages, m'.use, u)
    {
      assert UserAt(m.pgdir, m.pages, m.use, u) && At(m', u) == if u == v then 0 else At(m, u);
    }
    forall f: nat | f < |m.use|
      ensures m'.use[f] == if m.use[f] == User(v) then Free else m.use[f]
    {
    }
    forall g: nat {:trigger m'.use[g]} | g < |m'.use| && m'.use[g].User?
      ensures m'.use[g].v < USER_PAGES && Present(At(m', m'.use[g].v)) && FrameOf(At(m', m'.use[g].v)) == g
    {
      var u := m.use[g].v;
      assert At(m', u) == if u == v then 0 else At(m, u);
    }
  }

  // ---- deallocuvm ----

  /** Every page from lo up to hi unmapped, one after the other. */
  function Unmapped(m: Mem, lo: nat, hi: nat): Mem
    decreases hi - lo
  {
    if lo >= hi then m else Unmapped(Unmap(m, lo), lo + 1, hi)
  }

  /** Pages without a table may be skipped. */
  lemma {:induction false} SkipAbsent(m: Mem, lo: nat, mid: nat, hi: nat)
    requires lo <= mid && forall v: nat :: lo <= v < mid ==> !HasTable(m, v)
    ensures Unmapped(m, lo, hi) == Unmapped(m, if mid < hi then mid else if lo < hi then hi else lo, hi)
    decreases mid - lo
  {
    if lo < mid && lo < hi {
      assert !HasTable(m, lo);
      assert Unmap(m, lo) == m;
      SkipAbsent(m, lo + 1, mid, hi);
    }
  }

  /** The range is cleared, its own frames are freed, each once, and nothing else changes. */
  lemma {:induction false} UnmappedEffect(m: Mem, lo: nat, hi: nat)
    requires Sound(m) && hi <= USER_PAGES
    ensures var r := Unmapped(m, lo, hi);
            && Sound(r) && r.pgdir == m.pgdir && |r.use| == |m.use|
            && (forall u: nat :: u < PAGES && !(lo <= u < hi) ==> At(r, u) == At(m, u))
            && (forall u: nat :: lo <= u < hi ==> !Present(At(r, u)))
            && (forall f: nat :: f < |m.use| ==>
                  r.use[f] == if m.use[f].User? && lo <= m.use[f].v < hi then Free else m.use[f])
    decreases hi - lo
  {
    if lo < hi {
      UnmapIsSound(m, lo);
      var m1 := Unmap(m, lo);
      UnmappedEffect(m1, lo + 1, hi);
      var r := Unmapped(m, lo, hi);
      assert At(r, lo) == At(m1, lo);
    }
  }

  // ---- allocuvm ----

  datatype Outcome = Done | NoFrame | NoTable(f: nat) | Remapped(f: nat)

  datatype Growth = Growth(mem: Mem, out: Outcome)

  ghost predicate Bounded(m: Mem) {
    |m.pgdir| == ENTRIES && |m.use| == |m.pages| <= PAGES && forall i :: 0 <= i < |m.free| ==> m.free[i] < |m.use|
  }

  /** The loop of allocuvm from page a on: it stops when kalloc or mappages fails, or mappages panics. */
  ghost function Grow(m: Mem, a: nat, hi: nat): Growth
    requires Bounded(m) && hi <= USER_PAGES
    decreases hi - a
  {
    if a >= hi then Growth(m, Done)
    else if m.free == [] then Growth(m, NoFrame)
    else
      var f, held := m.free[0], Taken(m);
      var walked := Walked(held, a);
      if !HasTable(walked, a) then Growth(walked, NoTable(f))
      else if Present(At(walked, a)) then Growth(walked, Remapped(f))
      else Grow(Placed(walked, a, f), a + 1, hi)
  }

  /** How many frames the pages a..hi take: one each, and one for each table missing on the way. */
  ghost function Need(pgdir: seq<word>, a: nat, hi: nat): nat
    requires |pgdir| == ENTRIES && hi <= USER_PAGES
    decreases hi - a
  {
    if a >= hi then 0
    else if Present(pgdir[a / ENTRIES]) then 1 + Need(pgdir, a + 1, hi)
    else 2 + Need(pgdir[a / ENTRIES := 1], a + 1, hi)
  }

  /** What a frame that was free may become while pages lo..hi are mapped. */
  predicate NewUse(u: Use, lo: nat, hi: nat) {
    u.Table? || u == Held || (u.User? && lo <= u.v < hi)
  }

  /** Page u is mapped, writable by the user, to a frame of its own that was free. */
  ghost predicate NewPage(m: Mem, m': Mem, u: nat) {
    var e := At(m', u);
    && FrameOf(e) < |m.use| == |m'.use| && e == Entry(FrameOf(e), FLAGS)
    && m.use[FrameOf(e)] == Free && m'.use[FrameOf(e)] == User(u)
  }

  ghost predicate PageGrew(m: Mem, m': Mem, lo: nat, hi: nat, u: nat) {
    if lo <= u < hi then NewPage(m, m', u) else At(m', u) == At(m, u)
  }

  ghost predicate UseGrew(m: Mem, m': Mem, lo: nat, hi: nat, f: nat)
    requires f < |m.use| == |m'.use|
  {
    m'.use[f] == m.use[f] || (m.use[f] == Free && NewUse(m'.use[f], lo, hi))
  }

  /** m' is m with exactly the pages lo..hi added, all in frames that were free. */
  ghost predicate Extends(m: Mem, m': Mem, lo: nat, hi: nat) {
    && |m'.use| == |m.use|
    && (forall u: nat :: u < PAGES ==> PageGrew(m, m', lo, hi, u))
    && (forall f: nat :: f < |m.use| ==> UseGrew(m, m', lo, hi, f))
  }

  lemma ExtendsMore(m: Mem, m1: Mem, m2: Mem, a: nat, hi: nat)
    requires Extends(m, m1, a, a + 1) && Extends(m1, m2, a + 1, hi) && a < hi <= PAGES
    ensures Extends(m, m2, a, hi)
  {
    forall f: nat | f < |m.use|
      ensures UseGrew(m, m2, a, hi, f)
    {
      assert UseGrew(m, m1, a, a + 1, f) && UseGrew(m1, m2, a + 1, hi, f);
    }
    forall u: nat | u < PAGES
      ensures PageGrew(m, m2, a, hi, u)
    {
      assert PageGrew(m, m1, a, a + 1, u) && PageGrew(m1, m2, a + 1, hi, u);
      if a <= u < hi {
        var f := FrameOf(At(m2, u));
        assert UseGrew(m, m1, a, a + 1, f) && UseGrew(m1, m2, a + 1, hi, f);
      }
    }
  }

  lemma SoundIsBounded(m: Mem)
    requires Framed(m)
    ensures Bounded(m)
  {
    forall i | 0 <= i < |m.free|
      ensures m.free[i] < |m.use|
    {
      assert m.free[i] in m.free;
    }
  }

  /** walkpgdir with alloc set: no entry changes; a frame may become the missing table. */
  lemma WalkedEffect(m: Mem, v: nat)
    requires Sound(m) && v < PAGES
    ensures Bounded(m) && v / ENTRIES < ENTRIES && Sound(Walked(m, v)) && Extends(m, Walked(m, v), v, v)
    ensures HasTable(Walked(m, v), v) <==> HasTable(m, v) || m.free != []
    ensures |Walked(m, v).free| == |m.free| - if !HasTable(m, v) && m.free != [] then 1 else 0
    ensures forall d: nat :: d < ENTRIES && d != v / ENTRIES ==> Walked(m, v).pgdir[d] == m.pgdir[d]
    ensures forall f: nat :: f < |m.use| && Walked(m, v).use[f] == Held ==> m.use[f] == Held
    ensures forall f: nat :: f < |m.use| && m.use[f] == Held ==> Walked(m, v).use[f] == Held
  {
    PageParts(v, v);
    SoundIsBounded(m);
    if !HasTable(m, v) && m.free != [] {
      WithTableIsSound(m, v / ENTRIES);
    }
  }

  /** kalloc and walkpgdir, the start of one turn of allocuvm's loop. */
  lemma GrowStart(m: Mem, a: nat)
    requires Sound(m) && Bounded(m) && a < USER_PAGES && m.free != []
    ensures var held := Taken(m); var walked := Walked(held, a);
            && Sound(held) && Sound(walked) && Extends(held, walked, a, a) && At(walked, a) == At(m, a)
            && |walked.use| == |m.use| && walked.use[m.free[0]] == Held
            && (HasTable(walked, a) <==> HasTable(m, a) || |m.free| > 1)
  {
    TakenIsSound(m);
    WalkedEffect(Taken(m), a);
    assert PageGrew(Taken(m), Walked(Taken(m), a), a, a, a);
  }

  /** One turn of allocuvm's loop that succeeds. */
  lemma GrowOne(m: Mem, a: nat)
    requires Sound(m) && Bounded(m) && a < USER_PAGES && !Present(At(m, a)) && m.free != []
    ensures var held := Taken(m); var walked := Walked(held, a);
            && Sound(held) && Sound(walked) && !Present(At(walked, a))
            && (HasTable(walked, a) <==> HasTable(m, a) || |m.free| > 1)
            && (!HasTable(walked, a) ==> walked == held && held.free == [] && Extends(m, held, a, a))
            && (HasTable(walked, a) ==>
                  var m1 := Placed(walked, a, m.free[0]);
                  && Sound(m1) && Extends(m, m1, a, a + 1) && |m1.free| == |m.free| - (if HasTable(m, a) then 1 else 2)
                  && (forall d: nat :: d < ENTRIES ==>
                        (Present(m1.pgdir[d]) <==> Present(m.pgdir[d]) || d == a / ENTRIES))
                  && (forall f: nat :: f < |m.use| && m1.use[f] == Held ==> m.use[f] == Held))
  {
    GrowStart(m, a);
    TakenIsSound(m);
    var f, held := m.free[0], Taken(m);
    WalkedEffect(held, a);
    var walked := Walked(held, a);
    if HasTable(walked, a) {
      PlacedIsSound(walked, a, f);
      hide Sound;
      PlacedExtends(m, held, walked, a, f);
    }
  }

  lemma PlacedExtends(m: Mem, held: Mem, walked: Mem, a: nat, f: nat)
    requires f < |m.use| <= PAGES && m.use[f] == Free && held == Mem(m.pgdir, m.pages, m.use[f := Held], held.free)
    requires Extends(held, walked, a, a) && a < PAGES && walked.use[f] == Held
    requires forall u: nat :: u < PAGES ==>
               At(Placed(walked, a, f), u) == if u == a then Entry(f, FLAGS) else At(walked, u)
    ensures Extends(m, Placed(walked, a, f), a, a + 1)
  {
    var m1, hi := Placed(walked, a, f), a + 1;
    forall u: nat | u < PAGES
      ensures PageGrew(m, m1, a, hi, u)
    {
      assert PageGrew(held, walked, a, a, u);
      assert At(held, u) == At(m, u);
    }
    forall g: nat | g < |m.use|
      ensures UseGrew(m, m1, a, hi, g)
    {
      assert UseGrew(held, walked, a, a, g);
    }
  }

  lemma {:induction false} NeedByPresence(p: seq<word>, q: seq<word>, a: nat, hi: nat)
    requires |p| == |q| == ENTRIES && hi <= USER_PAGES &&
             forall d :: 0 <= d < ENTRIES ==> (Present(p[d]) <==> Present(q[d]))
    ensures Need(p, a, hi) == Need(q, a, hi)
    decreases hi - a
  {
    if a < hi {
      var d := a / ENTRIES;
      NeedByPresence(if Present(p[d]) then p else p[d := 1], if Present(p[d]) then q else q[d := 1], a + 1, hi);
    }
  }

  lemma ExtendsNone(m: Mem, a: nat, hi: nat)
    requires hi <= a
    ensures Extends(m, m, a, hi)
  {
  }

  /** No frame is left allocated to no purpose but the one whose page could not be mapped. */
  ghost predicate HeldOnly(m: Mem, r: Growth) {
    && |r.mem.use| == |m.use|
    && (forall f: nat {:trigger r.mem.use[f]} :: f < |m.use| && r.mem.use[f] == Held ==>
          m.use[f] == Held || r.out == NoTable(f))
    && (r.out.NoTable? ==> r.out.f < |m.use| && r.mem.use[r.out.f] == Held && m.use[r.out.f] == Free)
  }

  /** The state after one successful turn. */
  ghost function GrownOne(m: Mem, a: nat): Mem
    requires Bounded(m) && a < USER_PAGES && m.free != []
  {
    Placed(Walked(Taken(m), a), a, m.free[0])
  }

  ghost predicate Unused(m: Mem, a: nat, hi: nat) {
    forall u: nat {:trigger At(m, u)} :: a <= u < hi ==> !Present(At(m, u))
  }

  lemma GrowTurn(m: Mem, a: nat, hi: nat)
    requires Sound(m) && Bounded(m) && a < hi <= USER_PAGES && Unused(m, a, hi) && m.free != []
    ensures HasTable(m, a) || |m.free| > 1 ==>
              var m1 := GrownOne(m, a);
              && Sound(m1) && Bounded(m1) && Unused(m1, a + 1, hi) && Extends(m, m1, a, a + 1)
              && Grow(m, a, hi) == Grow(m1, a + 1, hi)
              && (forall f: nat :: f < |m.use| && m1.use[f] == Held ==> m.use[f] == Held)
              && Need(m.pgdir, a, hi) == (if HasTable(m, a) then 1 else 2) + Need(m1.pgdir, a + 1, hi)
              && |m1.free| == |m.free| - (if HasTable(m, a) then 1 else 2)
    ensures !HasTable(m, a) && |m.free| == 1 ==>
              && Grow(m, a, hi) == Growth(Taken(m), NoTable(m.free[0])) && Extends(m, Taken(m), a, a)
              && Sound(Taken(m)) && Need(m.pgdir, a, hi) > 1
  {
    GrowOne(m, a);
    hide Sound, Extends, Unused;
    if HasTable(m, a) || |m.free| > 1 {
      var m1 := GrownOne(m, a);
      SoundIsBounded(m1);
      StillUnmapped(m, m1, a, hi);
      GrowNeed(m, m1, a, hi);
    }
  }

  /** The pages up to b are mapped in order to fresh frames; the loop stops early only with no frame left. */
  ghost predicate GrowOutcome(m: Mem, r: Growth, a: nat, b: nat, hi: nat) {
    && Sound(r.mem) && a <= b <= hi && Extends(m, r.mem, a, b) && HeldOnly(m, r)
    && (r.out == Done ==> b == hi) && (r.out != Done ==> r.mem.free == []) && !r.out.Remapped?
  }

  lemma {:induction false} GrowEffect(m: Mem, a: nat, hi: nat) returns (b: nat)
    requires Sound(m) && Bounded(m) && a <= hi <= USER_PAGES && Unused(m, a, hi)
    ensures GrowOutcome(m, Grow(m, a, hi), a, b, hi)
    decreases hi - a
  {
    hide Sound, Extends, Grow, GrownOne, Need, HeldOnly, Unused, GrowOutcome;
    b := a;
    if a == hi || m.free == [] {
      GrowsNot(m, a, hi);
    } else {
      GrowTurn(m, a, hi);
      if HasTable(m, a) || |m.free| > 1 {
        var m1 := GrownOne(m, a);
        b := GrowEffect(m1, a + 1, hi);
        MoreGrown(m, m1, Grow(m1, a + 1, hi), a, b, hi);
      } else {
        NoneGrown(m, a, hi);
      }
    }
  }

  lemma GrowsNot(m: Mem, a: nat, hi: nat)
    requires Sound(m) && Bounded(m) && a <= hi <= USER_PAGES && (a == hi || m.free == [])
    ensures GrowOutcome(m, Grow(m, a, hi), a, a, hi)
  {
    ExtendsNone(m, a, a);
  }

  lemma MoreGrown(m: Mem, m1: Mem, r: Growth, a: nat, b: nat, hi: nat)
    requires GrowOutcome(m1, r, a + 1, b, hi) && Extends(m, m1, a, a + 1) && hi <= USER_PAGES
    requires forall f: nat :: f < |m.use| && m1.use[f] == Held ==> m.use[f] == Held
    ensures GrowOutcome(m, r, a, b, hi)
  {
    ExtendsMore(m, m1, r.mem, a, b);
    GrowHeld(m, m1, a, r);
  }

  lemma NoneGrown(m: Mem, a: nat, hi: nat)
    requires Sound(m) && a < hi && |m.free| == 1 && m.free[0] < |m.use| && Sound(Taken(m)) && Extends(m, Taken(m), a, a)
    ensures GrowOutcome(m, Growth(Taken(m), NoTable(m.free[0])), a, a, hi)
  {
    TakenIsSound(m);
  }

  /** It reaches the end exactly when there are frames enough for the pages and the missing tables. */
  lemma {:induction false} GrowExactly(m: Mem, a: nat, hi: nat)
    requires Sound(m) && Bounded(m) && a <= hi <= USER_PAGES && Unused(m, a, hi)
    ensures Grow(m, a, hi).out == Done <==> Need(m.pgdir, a, hi) <= |m.free|
    decreases hi - a
  {
    if a < hi && m.free != [] {
      hide Sound, Extends, Grow, GrownOne, Need, Unused;
      GrowTurn(m, a, hi);
      if HasTable(m, a) || |m.free| > 1 {
        GrowExactly(GrownOne(m, a), a + 1, hi);
      }
    }
  }

  lemma StillUnmapped(m: Mem, m1: Mem, a: nat, hi: nat)
    requires Extends(m, m1, a, a + 1) && hi <= USER_PAGES && Unused(m, a, hi)
    ensures Unused(m1, a + 1, hi)
  {
    forall u: nat {:trigger At(m1, u)} | a + 1 <= u < hi
      ensures !Present(At(m1, u))
    {
      assert PageGrew(m, m1, a, a + 1, u);
    }
  }

  lemma GrowNeed(m: Mem, m1: Mem, a: nat, hi: nat)
    requires |m.pgdir| == |m1.pgdir| == ENTRIES && a < hi <= USER_PAGES
    requires forall d: nat :: d < ENTRIES ==> (Present(m1.pgdir[d]) <==> Present(m.pgdir[d]) || d == a / ENTRIES)
    ensures Need(m.pgdir, a, hi) == (if HasTable(m, a) then 1 else 2) + Need(m1.pgdir, a + 1, hi)
  {
    var d := a / ENTRIES;
    NeedByPresence(if Present(m.pgdir[d]) then m.pgdir else m.pgdir[d := 1], m1.pgdir, a + 1, hi);
  }

  lemma GrowHeld(m: Mem, m1: Mem, a: nat, r: Growth)
    requires Extends(m, m1, a, a + 1) && HeldOnly(m1, r)
    requires forall f: nat :: f < |m.use| && m1.use[f] == Held ==> m.use[f] == Held
    ensures HeldOnly(m, r)
  {
    if r.out.NoTable? {
      assert UseGrew(m, m1, a, a + 1, r.out.f);
    }
  }

  /** Whatever was mapped before, the loop leaves a sound address space, and the frame it could not map is held. */
  lemma {:induction false} GrowIsSound(m: Mem, a: nat, hi: nat)
    requires Sound(m) && Bounded(m) && hi <= USER_PAGES
    ensures var r := Grow(m, a, hi);
            && Sound(r.mem) && |r.mem.use| == |m.use|
            && (r.out.NoTable? || r.out.Remapped? ==> r.out.f < |m.use| && r.mem.use[r.out.f] == Held)
    decreases hi - a
  {
    if a < hi && m.free != [] {
      GrowStart(m, a);
      var walked := Walked(Taken(m), a);
      if HasTable(walked, a) && !Present(At(walked, a)) {
        GrowOne(m, a);
        SoundIsBounded(GrownOne(m, a));
        hide Sound, Extends, Walked, Placed, Taken;
        GrowIsSound(GrownOne(m, a), a + 1, hi);
      }
    }
  }

  lemma OutsideStays(m: Mem, m1: Mem, a: nat, u: nat)
    requires Extends(m, m1, a, a + 1) && u < PAGES && u != a
    ensures At(m1, u) == At(m, u)
  {
    assert PageGrew(m, m1, a, a + 1, u);
  }

  /** With a page already present in the range, the "remap" panic comes exactly when the frames last up to it. */
  lemma {:induction false} GrowRemaps(m: Mem, a: nat, u: nat, hi: nat)
    requires Sound(m) && Bounded(m) && a <= u < hi <= USER_PAGES && Unused(m, a, u) && Present(At(m, u))
    ensures Grow(m, a, hi).out.Remapped? <==> Need(m.pgdir, a, u) < |m.free|
    decreases hi - a
  {
    hide Sound, Walked, Placed, Extends;
    if m.free != [] {
      GrowStart(m, a);
      if a < u {
        GrowTurn(m, a, u);
        if HasTable(m, a) || |m.free| > 1 {
          var m1 := GrownOne(m, a);
          OutsideStays(m, m1, a, u);
          GrowRemaps(m1, a + 1, u, hi);
        }
      }
    }
  }

  /** What allocuvm leaves when the loop has stopped: on failure the pages are unmapped and the odd frame freed. */
  ghost function AfterGrow(r: Growth, lo: nat, hi: nat): Mem {
    match r.out
    case Done => r.mem
    case Remapped(_) => r.mem
    case NoFrame => Unmapped(r.mem, lo, hi)
    case NoTable(f) =>
      var m := Unmapped(r.mem, lo, hi);
      if f < |m.use| then Returned(m, f) else m
  }

  /** m' maps what m maps, and no frame left the free list but to serve as a page table. */
  ghost predicate Restored(m: Mem, m': Mem) {
    && |m'.use| == |m.use| &&
       (forall u: nat :: u < PAGES && At(m, u) != At(m', u) ==> !Present(At(m, u)) && !Present(At(m', u)))
    && (forall f: nat {:trigger m'.use[f]} :: f < |m.use| ==>
          m'.use[f] == m.use[f] || (m.use[f] == Free && m'.use[f].Table?))
  }

  lemma FailureRestores(m: Mem, lo: nat, hi: nat, b: nat, r: Growth)
    requires Sound(m) && GrowOutcome(m, r, lo, b, hi) && hi <= USER_PAGES && r.out != Done
    requires Unused(m, lo, hi)
    ensures Sound(AfterGrow(r, lo, hi)) && Restored(m, AfterGrow(r, lo, hi))
  {
    UnmappedEffect(r.mem, lo, hi);
    var c, m' := Unmapped(r.mem, lo, hi), AfterGrow(r, lo, hi);
    if r.out.NoTable? {
      assert c.use[r.out.f] == Held;
      ReturnedIsSound(c, r.out.f);
    }
    hide Sound;
    forall u: nat | u < PAGES && At(m, u) != At(m', u)
      ensures !Present(At(m, u)) && !Present(At(m', u))
    {
      assert PageGrew(m, r.mem, lo, b, u) && At(m', u) == At(c, u);
    }
    forall f: nat {:trigger m'.use[f]} | f < |m.use|
      ensures m'.use[f] == m.use[f] || (m.use[f] == Free && m'.use[f].Table?)
    {
      assert UseGrew(m, r.mem, lo, b, f);
      assert c.use[f] == if r.mem.use[f].User? && lo <= r.mem.use[f].v < hi then Free else r.mem.use[f];
      assert r.mem.use[f] == Held ==> m.use[f] == Held || r.out == NoTable(f);
      UserStays(m, f, lo, hi);
    }
  }

  /** The frames mapped in the range before are none. */
  lemma UserStays(m: Mem, f: nat, lo: nat, hi: nat)
    requires Users(m.pgdir, m.pages, m.use) && f < |m.use| && Unused(m, lo, hi)
    ensures !(m.use[f].User? && lo <= m.use[f].v < hi)
  {
    if m.use[f].User? {
      assert Present(At(m, m.use[f].v));
    }
  }

  /**
   * Growing from page lo to page hi succeeds exactly when there are frames enough, counting missing tables;
   * then exactly these pages are new. Otherwise every mapping and every frame but new tables is as before.
   */
  lemma GrowthIsAllOrNothing(m: Mem, lo: nat, hi: nat)
    requires Sound(m) && Bounded(m) && lo <= hi <= USER_PAGES && Unused(m, lo, hi)
    ensures var r := Grow(m, lo, hi); var m' := AfterGrow(r, lo, hi);
            && Sound(m') && (r.out == Done <==> Need(m.pgdir, lo, hi) <= |m.free|)
            && (if r.out == Done then Extends(m, m', lo, hi) && HeldOnly(m, r) else Restored(m, m'))
  {
    var b := GrowEffect(m, lo, hi);
    GrowExactly(m, lo, hi);
    var r := Grow(m, lo, hi);
    hide Sound, Extends, HeldOnly, Restored, Grow, Need;
    if r.out != Done {
      FailureRestores(m, lo, hi, b, r);
    }
  }

  // ---- mappages ----

  datatype MapResult = Mapped | NoMemory | Remap

  function Stored(m: Mem, v: nat, e: word): Mem {
    Mem(m.pgdir, SetPte(m.pgdir, m.pages, v, e), m.use, m.free)
  }

  /** One turn of mappages' loop; Remap is the panic on a page that is present. */
  function MapStep(m: Mem, v: nat, e: word): (Mem, MapResult)
    requires v / ENTRIES < |m.pgdir| && |m.use| == |m.pages| <= PAGES && (m.free != [] ==> m.free[0] < |m.use|)
  {
    var w := Walked(m, v);
    if !HasTable(w, v) then (w, NoMemory) else if Present(At(w, v)) then (w, Remap) else (Stored(w, v, e), Mapped)
  }

  ghost predicate Mappable(m: Mem, v: nat, last: nat, f: nat, flags: nat) {
    Framed(m) && v <= last < PAGES && f + (last - v) < PAGES && flags < PGSIZE
  }

  /** Pages v..last mapped to the frames from f on. */
  ghost function MapRange(m: Mem, v: nat, last: nat, f: nat, flags: nat): (Mem, MapResult)
    requires Mappable(m, v, last, f, flags)
    decreases last - v
  {
    MapStepIsFramed(m, v, Entry(f, flags));
    var (m1, r) := MapStep(m, v, Entry(f, flags));
    if r == Mapped && v < last then MapRange(m1, v + 1, last, f + 1, flags) else (m1, r)
  }

  lemma WalkedIsFramed(m: Mem, v: nat)
    requires Framed(m) && v < PAGES
    ensures Bounded(m) && v / ENTRIES < ENTRIES && Framed(Walked(m, v))
    ensures forall u: nat :: u < PAGES ==> At(Walked(m, v), u) == At(m, u)
    ensures |Walked(m, v).use| == |m.use| && (HasTable(Walked(m, v), v) || m.free == [])
    ensures forall f: nat :: f < |m.use| ==>
              Walked(m, v).use[f] == m.use[f] || (m.use[f] == Free && Walked(m, v).use[f].Table?)
  {
    PageParts(v, v);
    SoundIsBounded(m);
    if !HasTable(m, v) && m.free != [] {
      WithTableIsFramed(m, v / ENTRIES);
    }
  }

  lemma StoredIsFramed(m: Mem, v: nat, e: word)
    requires Framed(m) && v < PAGES && HasTable(m, v)
    ensures Framed(Stored(m, v, e))
    ensures forall u: nat :: u < PAGES ==> At(Stored(m, v, e), u) == if u == v then e else At(m, u)
  {
    SetPteKeepsTables(m.pgdir, m.pages, m.use, v, e);
    forall u: nat | u < PAGES
      ensures At(Stored(m, v, e), u) == if u == v then e else At(m, u)
    {
      SetPteChangesOne(m.pgdir, m.pages, m.use, v, e, u);
    }
  }

  ghost predicate MappedTo(m: Mem, m': Mem, v: nat, b: nat, f: nat, flags: nat)
    requires v <= b <= PAGES && f + (b - v) <= PAGES && flags < PGSIZE
  {
    forall u: nat {:trigger At(m', u)} :: u < PAGES ==>
        At(m', u) == if v <= u < b then Entry(f + (u - v), flags) else At(m, u)
  }

  ghost predicate OnlyTables(m: Mem, m': Mem) {
    |m'.use| == |m.use| && forall f: nat {:trigger m'.use[f]} :: f < |m.use| ==>
      m'.use[f] == m.use[f] || (m.use[f] == Free && m'.use[f].Table?)
  }

  lemma MapTurn(m: Mem, v: nat, last: nat, f: nat, flags: nat)
    requires Mappable(m, v, last, f, flags)
    ensures Bounded(m) && v / ENTRIES < ENTRIES
    ensures var (m1, r) := MapStep(m, v, Entry(f, flags));
            && (r != Mapped || v == last ==> MapRange(m, v, last, f, flags) == (m1, r))
            && (r == Mapped && v < last ==>
                  && Mappable(m1, v + 1, last, f + 1, flags)
                  && MapRange(m, v, last, f, flags) == MapRange(m1, v + 1, last, f + 1, flags))
  {
    MapStepIsFramed(m, v, Entry(f, flags));
    hide Framed, MapStep;
  }

  lemma MapStepIsFramed(m: Mem, v: nat, e: word)
    requires Framed(m) && v < PAGES
    ensures Bounded(m) && v / ENTRIES < ENTRIES
    ensures var (m1, r) := MapStep(m, v, e);
            && Framed(m1) && OnlyTables(m, m1)
            && (r == Mapped <==> HasTable(m1, v) && !Present(At(m, v))) && (r == NoMemory <==> !HasTable(m1, v))
            && (r == NoMemory ==> m1.free == [])
            && (forall u: nat :: u < PAGES ==> At(m1, u) == if u == v && r == Mapped then e else At(m, u))
  {
    WalkedIsFramed(m, v);
    var w := Walked(m, v);
    hide Framed, Walked, Pte;
    assert At(w, v) == At(m, v);
    if HasTable(w, v) {
      StoredIsFramed(w, v, e);
      forall u: nat | u < PAGES
        ensures At(Stored(w, v, e), u) == if u == v then e else At(m, u)
      {
        assert At(w, u) == At(m, u);
      }
    }
  }

  /**
   * The pages are mapped in order up to b: all of them when mappages returns 0; up to the first one that was
   * present when it panics; up to one whose table could not be allocated otherwise.
   */
  ghost predicate MapOutcome(m: Mem, res: (Mem, MapResult), v: nat, last: nat, b: nat, f: nat, flags: nat) {
    && v <= b <= last + 1 <= PAGES && f + (last - v) < PAGES && flags < PGSIZE
    && Framed(res.0) && MappedTo(m, res.0, v, b, f, flags) && OnlyTables(m, res.0)
    && (res.1 == Mapped <==> b == last + 1)
    && (res.1 == Remap ==> Present(At(m, b))) && (res.1 == NoMemory ==> res.0.free == [] && !HasTable(res.0, b))
    && (forall u: nat {:trigger At(m, u)} :: v <= u < b ==> !Present(At(m, u)))
  }

  lemma {:induction false} MapRangeEffect(m: Mem, v: nat, last: nat, f: nat, flags: nat) returns (b: nat)
    requires Mappable(m, v, last, f, flags)
    ensures MapOutcome(m, MapRange(m, v, last, f, flags), v, last, b, f, flags)
    decreases last - v
  {
    hide Framed, MapStep, MapOutcome, MapRange, OnlyTables, At;
    MapTurn(m, v, last, f, flags);
    var e := Entry(f, flags);
    MapStepIsFramed(m, v, e);
    var (m1, r) := MapStep(m, v, e);
    if r != Mapped {
      b := v;
      StopOutcome(m, m1, r, v, last, f, flags);
    } else if v == last {
      b := v + 1;
      LastOutcome(m, m1, v, f, flags);
    } else {
      b := MapRangeEffect(m1, v + 1, last, f + 1, flags);
      MoreOutcome(m, m1, MapRange(m1, v + 1, last, f + 1, flags), v, last, b, f, flags);
    }
  }

  lemma StopOutcome(m: Mem, m1: Mem, r: MapResult, v: nat, last: nat, f: nat, flags: nat)
    requires v <= last < PAGES && f + (last - v) < PAGES && flags < PGSIZE && Framed(m1) && OnlyTables(m, m1) &&
             r != Mapped
    requires (r == Remap ==> HasTable(m1, v) && Present(At(m, v))) &&
             (r == NoMemory ==> m1.free == [] && !HasTable(m1, v))
    requires forall u: nat :: u < PAGES ==> At(m1, u) == At(m, u)
    ensures MapOutcome(m, (m1, r), v, last, v, f, flags)
  {
  }

  lemma LastOutcome(m: Mem, m1: Mem, v: nat, f: nat, flags: nat)
    requires v < PAGES && f < PAGES && flags < PGSIZE && Framed(m1) && OnlyTables(m, m1) && !Present(At(m, v))
    requires forall u: nat :: u < PAGES ==> At(m1, u) == if u == v then Entry(f, flags) else At(m, u)
    ensures MapOutcome(m, (m1, Mapped), v, v, v + 1, f, flags)
  {
  }

  lemma MoreOutcome(m: Mem, m1: Mem, res: (Mem, MapResult), v: nat, last: nat, b: nat, f: nat, flags: nat)
    requires MapOutcome(m1, res, v + 1, last, b, f + 1, flags) && OnlyTables(m, m1) && !Present(At(m, v))
    requires forall u: nat :: u < PAGES ==> At(m1, u) == if u == v then Entry(f, flags) else At(m, u)
    ensures MapOutcome(m, res, v, last, b, f, flags)
  {
    MapOneMore(m, m1, res.0, v, b, f, flags);
    forall u: nat {:trigger At(m, u)} | v <= u < b
      ensures !Present(At(m, u))
    {
      assert u != v ==> At(m1, u) == At(m, u);
    }
  }

  lemma MapOneMore(m: Mem, m1: Mem, m2: Mem, v: nat, b: nat, f: nat, flags: nat)
    requires v < b <= PAGES && f + (b - v) <= PAGES && flags < PGSIZE
    requires MappedTo(m1, m2, v + 1, b, f + 1, flags) && OnlyTables(m, m1) && OnlyTables(m1, m2)
    requires At(m1, v) == Entry(f, flags) && forall u: nat :: u < PAGES && u != v ==> At(m1, u) == At(m, u)
    ensures MappedTo(m, m2, v, b, f, flags) && OnlyTables(m, m2)
  {
  }
}
