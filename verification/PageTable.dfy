/**
 * Two-level page tables in the format of section 4.3 of the Intel SDM, volume 3A: a directory of 1024
 * words, each naming a frame that holds a table of 1024 words. `use` says what each frame is for.
 */
module PageTable {
  import opened Blocks

  const PGSIZE := 4096
  const ENTRIES := 1024
  const PAGES := 0x10_0000
  const USER_PAGES := 0x8_0000           // KERNBASE / PGSIZE
  const KERNBASE := 0x8000_0000
  const FLAGS := 7                       // PTE_P | PTE_W | PTE_U

  datatype Use =
    | Free
    | Held                               // returned by kalloc and not yet placed
    | Table(d: nat)                      // the page table of directory entry d
    | User(v: nat)                       // mapped at user page v
    | Shared                             // listed in shm_infos
    | Directory
    | Other                              // not managed by kalloc

  predicate Present(e: word) {
    e % 2 == 1
  }

  function FrameOf(e: word): (f: nat)
    ensures f < PAGES
  {
    e / PGSIZE
  }

  function Entry(f: nat, flags: nat): (e: word)
    requires f < PAGES && flags < PGSIZE
    ensures FrameOf(e) == f && (Present(e) <==> flags % 2 == 1)
  {
    EntryParts(f, flags);
    f * PGSIZE + flags
  }

  lemma EntryParts(f: nat, flags: nat)
    requires flags < PGSIZE
    ensures (f * PGSIZE + flags) / PGSIZE == f && (f * PGSIZE + flags) % 2 == flags % 2
  {
    assert f * PGSIZE + flags == 2 * (f * 2048 + flags / 2) + flags % 2;
  }

  /** The entry for page v, zero where there is no table. */
  function Pte(pgdir: seq<word>, pages: seq<seq<word>>, v: nat): word {
    if v / ENTRIES < |pgdir| && Present(pgdir[v / ENTRIES]) && FrameOf(pgdir[v / ENTRIES]) < |pages|
       && v % ENTRIES < |pages[FrameOf(pgdir[v / ENTRIES])]|
    then pages[FrameOf(pgdir[v / ENTRIES])][v % ENTRIES]
    else 0
  }

  function ZeroPage(): (z: seq<word>)
    ensures |z| == ENTRIES && forall i :: 0 <= i < ENTRIES ==> z[i] == 0
  {
    seq<word>(ENTRIES, _ => 0)
  }

  // ---- Invariants ----

  ghost predicate TableAt(pgdir: seq<word>, pages: seq<seq<word>>, use: seq<Use>, d: nat)
    requires d < |pgdir|
  {
    Present(pgdir[d]) ==>
      var t := FrameOf(pgdir[d]);
      t < |pages| && t < |use| && use[t] == Table(d) && |pages[t]| == ENTRIES
  }

  /** Directory entries and frames used as tables correspond. */
  ghost predicate Tables(pgdir: seq<word>, pages: seq<seq<word>>, use: seq<Use>) {
    && |pgdir| == ENTRIES && |use| == |pages| <= PAGES
    && (forall d: nat :: d < ENTRIES ==> TableAt(pgdir, pages, use, d))
    && (forall t: nat {:trigger use[t]} :: t < |use| && use[t].Table? ==>
          use[t].d < ENTRIES && Present(pgdir[use[t].d]) && FrameOf(pgdir[use[t].d]) == t)
  }

  ghost predicate UserAt(pgdir: seq<word>, pages: seq<seq<word>>, use: seq<Use>, v: nat) {
    var e := Pte(pgdir, pages, v);
    Present(e) ==> FrameOf(e) < |use| && (use[FrameOf(e)] == User(v) || use[FrameOf(e)] == Shared)
  }

  /** Each mapped user page has its own frame, or a shared one; each user frame is mapped where it says. */
  ghost predicate Users(pgdir: seq<word>, pages: seq<seq<word>>, use: seq<Use>) {
    && (forall v: nat :: v < USER_PAGES ==> UserAt(pgdir, pages, use, v))
    && (forall f: nat {:trigger use[f]} :: f < |use| && use[f].User? ==>
          use[f].v < USER_PAGES && Present(Pte(pgdir, pages, use[f].v)) && FrameOf(Pte(pgdir, pages, use[f].v)) == f)
  }

  // ---- Writing entries ----

  lemma PageParts(v: nat, u: nat)
    ensures v / ENTRIES == u / ENTRIES && v % ENTRIES == u % ENTRIES <==> u == v
    ensures v < PAGES ==> v / ENTRIES < ENTRIES
  {
    assert v == ENTRIES * (v / ENTRIES) + v % ENTRIES && u == ENTRIES * (u / ENTRIES) + u % ENTRIES;
  }

  function SetEntry(page: seq<word>, i: nat, w: word): seq<word>
    requires i < |page|
  {
    page[i := w]
  }

  /** `*pte = w` for the entry of page v. */
  function SetPte(pgdir: seq<word>, pages: seq<seq<word>>, v: nat, w: word): (r: seq<seq<word>>)
    ensures |r| == |pages|
  {
    if v / ENTRIES < |pgdir| && FrameOf(pgdir[v / ENTRIES]) < |pages| &&
        v % ENTRIES < |pages[FrameOf(pgdir[v / ENTRIES])]| then
      var t := FrameOf(pgdir[v / ENTRIES]);
      pages[t := SetEntry(pages[t], v % ENTRIES, w)]
    else pages
  }

  lemma SetPteChangesOne(pgdir: seq<word>, pages: seq<seq<word>>, use: seq<Use>, v: nat, w: word, u: nat)
    requires Tables(pgdir, pages, use) && v < PAGES && u < PAGES && Present(pgdir[v / ENTRIES])
    ensures Pte(pgdir, SetPte(pgdir, pages, v, w), u) == if u == v then w else Pte(pgdir, pages, u)
  {
    PageParts(v, u);
    PageParts(u, v);
    assert TableAt(pgdir, pages, use, v / ENTRIES) && TableAt(pgdir, pages, use, u / ENTRIES);
  }

  lemma SetPteKeepsTables(pgdir: seq<word>, pages: seq<seq<word>>, use: seq<Use>, v: nat, w: word)
    requires Tables(pgdir, pages, use) && v < PAGES && Present(pgdir[v / ENTRIES])
    ensures Tables(pgdir, SetPte(pgdir, pages, v, w), use)
  {
    PageParts(v, v);
    var pages' := SetPte(pgdir, pages, v, w);
    forall d: nat | d < ENTRIES
      ensures TableAt(pgdir, pages', use, d)
    {
      assert TableAt(pgdir, pages, use, d) && TableAt(pgdir, pages, use, v / ENTRIES);
    }
  }

  /** A zeroed table changes no entry. */
  lemma NewTableChangesNone(pgdir: seq<word>, pages: seq<seq<word>>, use: seq<Use>, d: nat, t: nat, v: nat)
    requires Tables(pgdir, pages, use) && d < ENTRIES && !Present(pgdir[d]) && t < |use| && !use[t].Table? && v < PAGES
    ensures Pte(pgdir[d := Entry(t, FLAGS)], pages[t := ZeroPage()], v) == Pte(pgdir, pages, v)
  {
    PageParts(v, v);
    assert TableAt(pgdir, pages, use, v / ENTRIES);
  }

  lemma NewTableKeepsTables(pgdir: seq<word>, pages: seq<seq<word>>, use: seq<Use>, d: nat, t: nat)
    requires Tables(pgdir, pages, use) && d < ENTRIES && !Present(pgdir[d]) && t < |use| && !use[t].Table?
    ensures Tables(pgdir[d := Entry(t, FLAGS)], pages[t := ZeroPage()], use[t := Table(d)])
  {
    var pgdir', pages', use' := pgdir[d := Entry(t, FLAGS)], pages[t := ZeroPage()], use[t := Table(d)];
    forall c: nat | c < ENTRIES
      ensures TableAt(pgdir', pages', use', c)
    {
      assert TableAt(pgdir, pages, use, c);
    }
    forall f: nat {:trigger use'[f]} | f < |use'| && use'[f].Table?
      ensures use'[f].d < ENTRIES && Present(pgdir'[use'[f].d]) && FrameOf(pgdir'[use'[f].d]) == f
    {
      if f != t {
        assert use[f].Table?;
      }
    }
  }

  /** The use of a frame that is no table before or after does not matter to the tables. */
  lemma UseKeepsTables(pgdir: seq<word>, pages: seq<seq<word>>, use: seq<Use>, f: nat, u: Use)
    requires Tables(pgdir, pages, use) && f < |use| && !use[f].Table? && !u.Table?
    ensures Tables(pgdir, pages, use[f := u])
  {
    var use' := use[f := u];
    forall d: nat | d < ENTRIES
      ensures TableAt(pgdir, pages, use', d)
    {
      assert TableAt(pgdir, pages, use, d);
    }
  }
}
