/**
 * The buffer cache of bio.c over the block disk of memide.c. A buffer is an index into
 * `bcache.buf`; HEAD stands for `&bcache.head`. The doubly linked list is kept in `nxt` and `prv`,
 * and the ghost sequence `order` names the buffers from most to least recently used.
 */
module BufferCache {
  import opened Blocks
  import opened Options
  import opened Sequences

  const NBUF := 30
  const HEAD := NBUF
  const ROOTDEV := 1

  /** `struct buf` without its links; `holder` is the sleep lock (`locked` and `pid`). */
  datatype Buf = Buf(valid: bool, dirty: bool, dev: nat, blockno: nat, holder: Option<nat>, refcnt: nat, data: Block)
  {
    predicate Holds(b: nat) {
      dev == ROOTDEV && blockno == b
    }

    predicate Recyclable() {
      refcnt == 0 && !dirty
    }
  }

  // ---- The list ----

  /** What follows position `i` of the list, position -1 being the head. */
  function After(order: seq<nat>, i: int): nat
    requires -1 <= i < |order|
  {
    if i + 1 < |order| then order[i + 1] else HEAD
  }

  function Before(order: seq<nat>, i: int): nat
    requires 0 <= i <= |order|
  {
    if i > 0 then order[i - 1] else HEAD
  }

  ghost predicate NoRepeats(order: seq<nat>) {
    && (forall i :: 0 <= i < |order| ==> order[i] < NBUF)
    && (forall i, j :: 0 <= i < j < |order| ==> order[i] != order[j])
  }

  ghost predicate NextLinks(nxt: seq<nat>, order: seq<nat>)
    requires NoRepeats(order)
  {
    && |nxt| == NBUF + 1 && nxt[HEAD] == After(order, -1)
    && (forall i {:trigger After(order, i)} :: 0 <= i < |order| ==> nxt[order[i]] == After(order, i))
  }

  ghost predicate PrevLinks(prv: seq<nat>, order: seq<nat>)
    requires NoRepeats(order)
  {
    && |prv| == NBUF + 1 && prv[HEAD] == Before(order, |order|)
    && (forall i {:trigger Before(order, i)} :: 0 <= i < |order| ==> prv[order[i]] == Before(order, i))
  }

  /** `nxt` and `prv` are the circular doubly linked list through the head and `order`. */
  ghost predicate Links(nxt: seq<nat>, prv: seq<nat>, order: seq<nat>) {
    NoRepeats(order) && NextLinks(nxt, order) && PrevLinks(prv, order)
  }

  lemma LinkFrontNext(nxt: seq<nat>, order: seq<nat>, b: nat)
    requires NoRepeats(order) && NextLinks(nxt, order) && b < NBUF && b !in order
    ensures NoRepeats([b] + order) && NextLinks(nxt[b := nxt[HEAD]][HEAD := b], [b] + order)
  {
    var order', nxt' := [b] + order, nxt[b := nxt[HEAD]][HEAD := b];
    forall i | 0 <= i < |order'|
      ensures nxt'[order'[i]] == After(order', i)
    {
      if i > 0 {
        assert nxt[order[i - 1]] == After(order, i - 1);
      }
    }
  }

  lemma LinkFrontPrev(prv: seq<nat>, order: seq<nat>, b: nat)
    requires NoRepeats(order) && PrevLinks(prv, order) && b < NBUF && b !in order && NoRepeats([b] + order)
    ensures PrevLinks(prv[b := HEAD][After(order, -1) := b], [b] + order)
  {
    var order', prv' := [b] + order, prv[b := HEAD][After(order, -1) := b];
    forall i | 0 <= i < |order'|
      ensures prv'[order'[i]] == Before(order', i)
    {
      if i > 0 {
        assert prv[order[i - 1]] == Before(order, i - 1);
      }
    }
  }

  /** Four stores put `b` in front, as in binit and at the end of brelse. */
  lemma LinkFront(nxt: seq<nat>, prv: seq<nat>, order: seq<nat>, b: nat)
    requires Links(nxt, prv, order) && b < NBUF && b !in order
    ensures nxt[HEAD] <= NBUF
    ensures Links(nxt[b := nxt[HEAD]][HEAD := b], prv[b := HEAD][nxt[HEAD] := b], [b] + order)
  {
    LinkFrontNext(nxt, order, b);
    LinkFrontPrev(prv, order, b);
  }

  lemma Removed(order: seq<nat>, k: nat)
    requires NoRepeats(order) && k < |order|
    ensures NoRepeats(Without(order, k)) && order[k] !in Without(order, k)
    ensures forall i :: 0 <= i < |order| - 1 ==> Without(order, k)[i] == order[if i < k then i else i + 1]
  {
  }

  lemma UnlinkNext(nxt: seq<nat>, prv: seq<nat>, order: seq<nat>, k: nat)
    requires Links(nxt, prv, order) && k < |order| && NoRepeats(Without(order, k))
    ensures prv[order[k]] <= NBUF && NextLinks(nxt[prv[order[k]] := nxt[order[k]]], Without(order, k))
  {
    Removed(order, k);
    assert prv[order[k]] == Before(order, k) && nxt[order[k]] == After(order, k);
    var rest, nxt' := Without(order, k), nxt[prv[order[k]] := nxt[order[k]]];
    forall i | 0 <= i < |rest|
      ensures nxt'[rest[i]] == After(rest, i)
    {
      var j := if i < k then i else i + 1;
      assert rest[i] == order[j];
      assert nxt[order[j]] == After(order, j);
    }
  }

  lemma UnlinkPrev(nxt: seq<nat>, prv: seq<nat>, order: seq<nat>, k: nat)
    requires Links(nxt, prv, order) && k < |order| && NoRepeats(Without(order, k))
    ensures nxt[order[k]] <= NBUF && PrevLinks(prv[nxt[order[k]] := prv[order[k]]], Without(order, k))
  {
    Removed(order, k);
    assert prv[order[k]] == Before(order, k) && nxt[order[k]] == After(order, k);
    var rest, prv' := Without(order, k), prv[nxt[order[k]] := prv[order[k]]];
    forall i | 0 <= i < |rest|
      ensures prv'[rest[i]] == Before(rest, i)
    {
      if i < k {
        assert rest[i] == order[i] && prv[order[i]] == Before(order, i);
        assert order[i] != After(order, k);
        assert i > 0 ==> rest[i - 1] == order[i - 1];
      } else if i > k {
        assert rest[i] == order[i + 1] && prv[order[i + 1]] == Before(order, i + 1);
        assert order[i + 1] != order[k + 1];
        assert rest[i - 1] == order[i];
      }
    }
  }

  /** Two stores take the buffer at position `k` out, as brelse does first. */
  lemma Unlink(nxt: seq<nat>, prv: seq<nat>, order: seq<nat>, k: nat)
    requires Links(nxt, prv, order) && k < |order|
    ensures nxt[order[k]] <= NBUF && prv[order[k]] <= NBUF
    ensures Links(nxt[prv[order[k]] := nxt[order[k]]], prv[nxt[order[k]] := prv[order[k]]], Without(order, k))
  {
    Removed(order, k);
    UnlinkNext(nxt, prv, order, k);
    UnlinkPrev(nxt, prv, order, k);
  }

  /** `order` lists every buffer exactly once. */
  ghost predicate Permutation(order: seq<nat>) {
    && |order| == NBUF
    && (forall i :: 0 <= i < |order| ==> order[i] < NBUF)
    && (forall i, j :: 0 <= i < j < |order| ==> order[i] != order[j])
    && (forall b :: 0 <= b < NBUF ==> b in order)
  }

  lemma ListsAll(order: seq<nat>)
    requires |order| == NBUF && forall i :: 0 <= i < NBUF ==> order[i] == NBUF - 1 - i
    ensures Permutation(order)
  {
    forall b | 0 <= b < NBUF
      ensures b in order
    {
      assert order[NBUF - 1 - b] == b;
    }
  }

  function ToFront(order: seq<nat>, k: nat): seq<nat>
    requires k < |order|
  {
    [order[k]] + Without(order, k)
  }

  lemma ToFrontKeepsPermutation(order: seq<nat>, k: nat)
    requires Permutation(order) && k < NBUF
    ensures Permutation(ToFront(order, k))
  {
    var front := ToFront(order, k);
    forall b | 0 <= b < NBUF
      ensures b in front
    {
      assert b in order;
      var i :| 0 <= i < |order| && order[i] == b;
      assert front[if i == k then 0 else if i < k then i + 1 else i] == b;
    }
  }

  /** Buffer a comes before buffer c in the list. */
  ghost predicate Ahead(order: seq<nat>, a: nat, c: nat) {
    exists i, j :: 0 <= i < j < |order| && order[i] == a && order[j] == c
  }

  /** i is now the first of the list, and every two others are in the order they were in. */
  ghost predicate Fronted(order: seq<nat>, order': seq<nat>, i: nat) {
    && order' != [] && order'[0] == i
    && (forall a, c :: a != i && c != i ==> (Ahead(order', a, c) <==> Ahead(order, a, c)))
  }

  lemma ToFrontMoves(order: seq<nat>, k: nat)
    requires NoRepeats(order) && k < |order|
    ensures Fronted(order, ToFront(order, k), order[k])
  {
    var front := ToFront(order, k);
    forall a, c | a != order[k] && c != order[k]
      ensures Ahead(front, a, c) <==> Ahead(order, a, c)
    {
      if i, j :| 0 <= i < j < |order| && order[i] == a && order[j] == c {
        assert front[if i < k then i + 1 else i] == a && front[if j < k then j + 1 else j] == c;
      }
      if i, j :| 0 <= i < j < |front| && front[i] == a && front[j] == c {
        assert order[if i <= k then i - 1 else i] == a && order[if j <= k then j - 1 else j] == c;
      }
    }
  }

  // ---- What bget finds ----

  /** Position in the list of the buffer that caches block `b`, or |order|. */
  function Lookup(bufs: seq<Buf>, order: seq<nat>, b: nat): (k: nat)
    requires forall i :: 0 <= i < |order| ==> order[i] < |bufs|
    ensures k <= |order|
    ensures k < |order| ==> bufs[order[k]].Holds(b)
    ensures forall j :: 0 <= j < k ==> !bufs[order[j]].Holds(b)
  {
    if order == [] || bufs[order[0]].Holds(b) then 0 else
    var k := Lookup(bufs, order[1..], b);
    assert forall j :: 1 <= j < k + 1 ==> order[j] == order[1..][j - 1];
    k + 1
  }

  /** Position of the least recently used recyclable buffer, or -1. */
  function Victim(bufs: seq<Buf>, order: seq<nat>): (k: int)
    requires forall i :: 0 <= i < |order| ==> order[i] < |bufs|
    ensures -1 <= k < |order|
    ensures k >= 0 ==> bufs[order[k]].Recyclable()
    ensures forall j :: k < j < |order| ==> !bufs[order[j]].Recyclable()
  {
    var n := |order| - 1;
    if order == [] then -1 else if bufs[order[n]].Recyclable() then n else Victim(bufs, order[..n])
  }

  /** The buffer bget chooses for block `b`: its own, else the victim; None is the "no buffers" panic. */
  function Chosen(bufs: seq<Buf>, order: seq<nat>, b: nat): (r: Option<nat>)
    requires forall i :: 0 <= i < |order| ==> order[i] < |bufs|
    ensures r.Some? ==> r.value in order
  {
    var k := Lookup(bufs, order, b);
    if k < |order| then Some(order[k])
    else if Victim(bufs, order) == -1 then None
    else Some(order[Victim(bufs, order)])
  }

  /** The buffer after bget: one more reference, and claimed for `b` if it held another block. */
  function Claimed(buf: Buf, b: nat): Buf {
    if buf.Holds(b) then buf.(refcnt := buf.refcnt + 1)
    else buf.(dev := ROOTDEV, blockno := b, valid := false, dirty := false, refcnt := 1)
  }

  ghost predicate Unique(bufs: seq<Buf>) {
    forall i, j :: 0 <= i < j < |bufs| && bufs[i].dev == ROOTDEV && bufs[j].dev == ROOTDEV ==>
                     bufs[i].blockno != bufs[j].blockno
  }

  /** Block `b` has a buffer with B_DIRTY set: logged, not yet written home. */
  ghost predicate Pinned(bufs: seq<Buf>, b: nat) {
    exists i :: 0 <= i < |bufs| && bufs[i].dirty && bufs[i].blockno == b
  }

  lemma ClaimKeepsUnique(bufs: seq<Buf>, order: seq<nat>, b: nat)
    requires |bufs| == NBUF && Permutation(order) && Unique(bufs) && Chosen(bufs, order, b).Some?
    ensures var i := Chosen(bufs, order, b).value; Unique(bufs[i := Claimed(bufs[i], b)])
  {
    if Lookup(bufs, order, b) == |order| {
      forall i | 0 <= i < |bufs|
        ensures !bufs[i].Holds(b)
      {
        assert i in order;
      }
    }
  }

  lemma {:induction false} FullSet(n: nat) returns (all: set<nat>)
    ensures |all| == n && forall i :: i in all <==> 0 <= i < n
  {
    all := {};
    if n > 0 {
      var fewer := FullSet(n - 1);
      all := fewer + {n - 1};
    }
  }

  lemma {:induction false} InjectionBound(ixs: set<nat>, bufs: seq<Buf>, blocks: set<nat>)
    requires Unique(bufs)
    requires forall i :: i in ixs ==> i < |bufs| && bufs[i].dev == ROOTDEV && bufs[i].blockno in blocks
    ensures |ixs| <= |blocks|
    decreases |ixs|
  {
    if ixs != {} {
      var i :| i in ixs;
      forall j | j in ixs - {i}
        ensures bufs[j].blockno in blocks - {bufs[i].blockno}
      {
        if j < i { assert bufs[j].blockno != bufs[i].blockno; }
      }
      InjectionBound(ixs - {i}, bufs, blocks - {bufs[i].blockno});
    }
  }

  /** bget cannot panic while the buffers in use or pinned hold fewer than NBUF blocks. */
  lemma SomeBufferFree(bufs: seq<Buf>, order: seq<nat>, b: nat, busy: set<nat>)
    requires |bufs| == NBUF && Permutation(order) && Unique(bufs) && |busy| < NBUF
    requires forall i :: 0 <= i < NBUF && !bufs[i].Recyclable() ==> bufs[i].dev == ROOTDEV && bufs[i].blockno in busy
    ensures Chosen(bufs, order, b).Some?
  {
    if Victim(bufs, order) == -1 {
      forall i | 0 <= i < NBUF
        ensures !bufs[i].Recyclable()
      {
        assert i in order;
      }
      var all := FullSet(NBUF);
      InjectionBound(all, bufs, busy);
    }
  }

  lemma PinnedUnchanged(bufs: seq<Buf>, i: nat, buf: Buf)
    requires i < |bufs| && buf.dirty == bufs[i].dirty && (buf.dirty ==> buf.blockno == bufs[i].blockno)
    ensures forall b :: Pinned(bufs[i := buf], b) <==> Pinned(bufs, b)
  {
    var bufs' := bufs[i := buf];
    forall b
      ensures Pinned(bufs', b) <==> Pinned(bufs, b)
    {
      if j :| 0 <= j < |bufs| && bufs[j].dirty && bufs[j].blockno == b {
        assert bufs'[j].dirty && bufs'[j].blockno == b;
      }
      if j :| 0 <= j < |bufs'| && bufs'[j].dirty && bufs'[j].blockno == b {
        assert bufs[j].dirty && bufs[j].blockno == b;
      }
    }
  }

  // ---- Coherence ----

  /** A buffer on the disk's device, in range; valid if dirty; and if valid, with the latest content. */
  ghost predicate BufferCoherent(buf: Buf, view: seq<Block>) {
    && (buf.dev == ROOTDEV ==> buf.blockno < |view|)
    && (buf.dirty ==> buf.valid)
    && (buf.valid || buf.refcnt > 0 ==> buf.dev == ROOTDEV)
    && (buf.valid ==> buf.data == view[buf.blockno])
  }

  /** A sleep lock is only ever held by a process that has a reference. */
  ghost predicate FreeUnlocked(bufs: seq<Buf>) {
    forall i :: 0 <= i < |bufs| && bufs[i].refcnt == 0 ==> bufs[i].holder == None
  }

  /** Every buffer is coherent, and so is the disk wherever no dirty buffer covers it. */
  ghost predicate Coherent(bufs: seq<Buf>, disk: seq<Block>, view: seq<Block>) {
    && |view| == |disk|
    && (forall i :: 0 <= i < |bufs| ==> BufferCoherent(bufs[i], view))
    && (forall b :: 0 <= b < |disk| && !Pinned(bufs, b) ==> disk[b] == view[b])
  }

  lemma InvalidIsUnpinned(bufs: seq<Buf>, disk: seq<Block>, view: seq<Block>, i: nat)
    requires Coherent(bufs, disk, view) && Unique(bufs) && i < |bufs| && bufs[i].dev == ROOTDEV && !bufs[i].valid
    ensures !Pinned(bufs, bufs[i].blockno)
  {
    forall j | 0 <= j < |bufs| && bufs[j].dirty
      ensures bufs[j].blockno != bufs[i].blockno
    {
      assert BufferCoherent(bufs[j], view);
    }
  }

  lemma UpdateKeepsCoherent(bufs: seq<Buf>, disk: seq<Block>, view: seq<Block>, i: nat, buf: Buf)
    requires Coherent(bufs, disk, view) && i < |bufs| && BufferCoherent(buf, view)
    requires buf.dirty == bufs[i].dirty && (buf.dirty ==> buf.blockno == bufs[i].blockno)
    ensures Coherent(bufs[i := buf], disk, view)
  {
    PinnedUnchanged(bufs, i, buf);
  }

  /** bwrite: disk and latest content change together, and the pin goes. */
  lemma WriteKeepsCoherent(bufs: seq<Buf>, disk: seq<Block>, view: seq<Block>, i: nat, data: Block)
    requires Coherent(bufs, disk, view) && Unique(bufs) && i < |bufs| && bufs[i].valid
    ensures var b := bufs[i].blockno;
            Coherent(bufs[i := bufs[i].(data := data, dirty := false)], disk[b := data], view[b := data])
  {
    var b, bufs' := bufs[i].blockno, bufs[i := bufs[i].(data := data, dirty := false)];
    forall c | 0 <= c < |disk| && c != b && Pinned(bufs, c)
      ensures Pinned(bufs', c)
    {
      var j :| 0 <= j < |bufs| && bufs[j].dirty && bufs[j].blockno == c;
      assert bufs'[j].dirty;
    }
    forall j | 0 <= j < |bufs|
      ensures BufferCoherent(bufs'[j], view[b := data])
    {
      assert BufferCoherent(bufs[j], view);
    }
  }

  /** log_write: only the latest content changes, and the buffer is pinned. */
  lemma PinKeepsCoherent(bufs: seq<Buf>, disk: seq<Block>, view: seq<Block>, i: nat, data: Block)
    requires Coherent(bufs, disk, view) && Unique(bufs) && i < |bufs| && bufs[i].valid
    ensures var b := bufs[i].blockno;
            Coherent(bufs[i := bufs[i].(data := data, dirty := true)], disk, view[b := data])
  {
    var b, bufs' := bufs[i].blockno, bufs[i := bufs[i].(data := data, dirty := true)];
    assert bufs'[i].dirty && bufs'[i].blockno == b;
    forall c | 0 <= c < |disk| && c != b && Pinned(bufs, c)
      ensures Pinned(bufs', c)
    {
      var j :| 0 <= j < |bufs| && bufs[j].dirty && bufs[j].blockno == c;
      assert bufs'[j].dirty;
    }
    forall j | 0 <= j < |bufs|
      ensures BufferCoherent(bufs'[j], view[b := data])
    {
      assert BufferCoherent(bufs[j], view);
    }
  }

  // ---- The cache itself ----

  class Cache {
    var bufs: seq<Buf>
    var nxt: seq<nat>
    var prv: seq<nat>
    var disk: seq<Block>
    ghost var order: seq<nat>
    ghost var images: seq<seq<Block>>   // the disk after every block write: what a crash can leave behind

    ghost var view: seq<Block>          // the content most recently logged or written, block by block

    ghost predicate Valid()
      reads this
    {
      && |bufs| == NBUF && Links(nxt, prv, order) && Permutation(order) && Unique(bufs)
      && Coherent(bufs, disk, view) && FreeUnlocked(bufs)
    }

    /** binit: every buffer starts on (device 0, block 0), unused, linked in front of the previous one. */
    constructor (image: seq<Block>)
      ensures Valid() && disk == view == image && images == []
      ensures |order| == NBUF && forall i :: 0 <= i < NBUF ==> order[i] == NBUF - 1 - i
      ensures forall i :: 0 <= i < NBUF ==> bufs[i] == Buf(false, false, 0, 0, None, 0, ZeroBlock())
    {
      disk, view, images := image, image, [];
      bufs := seq(NBUF, _ => Buf(false, false, 0, 0, None, 0, ZeroBlock()));
      var next, prev, linked := LinkAll();
      nxt, prv, order := next, prev, linked;
      new;
      ListsAll(order);
    }

    /** The loop of binit. */
    static method LinkAll() returns (next: seq<nat>, prev: seq<nat>, ghost linked: seq<nat>)
      ensures Links(next, prev, linked)
      ensures |linked| == NBUF && forall i :: 0 <= i < NBUF ==> linked[i] == NBUF - 1 - i
    {
      next, prev, linked := seq(NBUF + 1, _ => HEAD), seq(NBUF + 1, _ => HEAD), [];
      for b := 0 to NBUF
        invariant Links(next, prev, linked)
        invariant |linked| == b && forall i :: 0 <= i < b ==> linked[i] == b - 1 - i
      {
        LinkFront(next, prev, linked, b);
        next := next[b := next[HEAD]];
        prev := prev[b := HEAD];
        prev := prev[next[b] := b];
        next := next[HEAD := b];
        linked := [b] + linked;
      }
    }

    /** bget's forward scan: is the block already cached? */
    method FindCached(b: nat) returns (i: nat)
      requires Valid()
      ensures i <= HEAD
      ensures var k := Lookup(bufs, order, b); i == if k < NBUF then order[k] else HEAD
    {
      i := nxt[HEAD];
      ghost var k := 0;
      while i != HEAD && !(bufs[i].dev == ROOTDEV && bufs[i].blockno == b)
        invariant 0 <= k <= NBUF && i == After(order, k - 1)
        invariant forall j :: 0 <= j < k ==> !bufs[order[j]].Holds(b)
        decreases NBUF - k
      {
        assert nxt[order[k]] == After(order, k);
        i := nxt[i];
        k := k + 1;
      }
    }

    /** bget's backward scan: the least recently used buffer that may be recycled. */
    method FindUnused() returns (i: nat)
      requires Valid()
      ensures i <= HEAD
      ensures var k := Victim(bufs, order); i == if k >= 0 then order[k] else HEAD
    {
      i := prv[HEAD];
      ghost var k := NBUF - 1;
      while i != HEAD && !(bufs[i].refcnt == 0 && !bufs[i].dirty)
        invariant -1 <= k < NBUF && i == Before(order, k + 1)
        invariant forall j :: k < j < NBUF ==> !bufs[order[j]].Recyclable()
        decreases k
      {
        assert prv[order[k]] == Before(order, k);
        i := prv[i];
        k := k - 1;
      }
    }

    /** The critical section of bget: find or recycle a buffer and take a reference; None is its panic. */
    method Bget(b: nat) returns (r: Option<nat>)
      requires Valid() && b < |disk|
      modifies this`bufs
      ensures Valid()
      ensures r == Chosen(old(bufs), order, b)
      ensures bufs == if r.Some? then old(bufs)[r.value := Claimed(old(bufs)[r.value], b)] else old(bufs)
    {
      var i := FindCached(b);
      if i != HEAD {
        UpdateKeepsCoherent(bufs, disk, view, i, Claimed(bufs[i], b));
        bufs := bufs[i := bufs[i].(refcnt := bufs[i].refcnt + 1)];
        return Some(i);
      }
      i := FindUnused();
      if i != HEAD {
        ClaimKeepsUnique(bufs, order, b);
        UpdateKeepsCoherent(bufs, disk, view, i, Claimed(bufs[i], b));
        bufs := bufs[i := bufs[i].(dev := ROOTDEV, blockno := b, valid := false, dirty := false, refcnt := 1)];
        return Some(i);
      }
      return None;
    }

    /** acquiresleep on a free lock. */
    method Lock(p: nat, i: nat)
      requires Valid() && i < NBUF && bufs[i].holder == None && bufs[i].refcnt > 0
      modifies this`bufs
      ensures Valid() && bufs == old(bufs)[i := old(bufs)[i].(holder := Some(p))]
    {
      UpdateKeepsCoherent(bufs, disk, view, i, bufs[i].(holder := Some(p)));
      bufs := bufs[i := bufs[i].(holder := Some(p))];
    }

    /** iderw with B_DIRTY and B_VALID clear: read the block. */
    method ReadDisk(p: nat, i: nat)
      requires Valid() && i < NBUF && bufs[i].holder == Some(p) && bufs[i].dev == ROOTDEV && !bufs[i].valid
      modifies this`bufs
      ensures Valid() && bufs[i].blockno < |view|
      ensures bufs == old(bufs)[i := old(bufs)[i].(data := view[old(bufs)[i].blockno], valid := true)]
    {
      assert BufferCoherent(bufs[i], view);
      var b := bufs[i].blockno;
      InvalidIsUnpinned(bufs, disk, view, i);
      UpdateKeepsCoherent(bufs, disk, view, i, bufs[i].(data := disk[b], valid := true));
      bufs := bufs[i := bufs[i].(data := disk[b], valid := true)];
    }

    /** The rest of bread, once the buffer's lock is free: it comes back locked, with the latest content. */
    method LockAndFill(p: nat, i: nat)
      requires Valid() && i < NBUF && bufs[i].holder == None && bufs[i].refcnt > 0
      modifies this`bufs
      ensures Valid() && bufs[i].blockno < |view|
      ensures bufs == old(bufs)[i := old(bufs)[i].(valid := true, holder := Some(p), data := view[bufs[i].blockno])]
    {
      Lock(p, i);
      assert BufferCoherent(bufs[i], view);
      if !bufs[i].valid {
        ReadDisk(p, i);
      }
    }

    /**
     * bread. `locked` is false where it goes to sleep: on the lock of a buffer another process holds,
     * with its own reference already counted, so that the buffer stays the block's until it wakes.
     */
    method Bread(p: nat, b: nat) returns (r: Option<nat>, locked: bool)
      requires Valid() && b < |disk|
      modifies this`bufs
      ensures Valid()
      ensures r == Chosen(old(bufs), order, b)
      ensures r.None? ==> bufs == old(bufs)
      ensures locked <==> r.Some? && old(bufs)[r.value].holder == None
      ensures r.Some? ==>
                var buf := Claimed(old(bufs)[r.value], b);
                bufs == old(bufs)[r.value := if locked then buf.(valid := true, holder := Some(p), data := view[b])
                  else buf]
    {
      r := Bget(b);
      locked := false;
      if r.Some? && bufs[r.value].holder == None {
        LockAndFill(p, r.value);
        locked := true;
      }
    }

    /** The caller fills a locked buffer and calls bwrite: one block of the disk changes, at once. */
    method Bwrite(p: nat, i: nat, data: Block)
      requires Valid() && i < NBUF && bufs[i].holder == Some(p) && bufs[i].valid
      modifies this`bufs, this`disk, this`images, this`view
      ensures Valid()
      ensures old(bufs)[i].blockno < |old(disk)|
      ensures bufs == old(bufs)[i := old(bufs)[i].(data := data, dirty := false)]
      ensures disk == old(disk)[old(bufs)[i].blockno := data] && view == old(view)[old(bufs)[i].blockno := data]
      ensures images == old(images) + [disk]
    {
      assert BufferCoherent(bufs[i], view);
      WriteKeepsCoherent(bufs, disk, view, i, data);
      var b := bufs[i].blockno;
      bufs := bufs[i := bufs[i].(data := data, dirty := true)];
      bufs := bufs[i := bufs[i].(dirty := false)];
      disk := disk[b := bufs[i].data];
      bufs := bufs[i := bufs[i].(valid := true)];
      view := view[b := data];
      images := images + [disk];
      assert bufs == old(bufs)[i := old(bufs)[i].(data := data, dirty := false)];
    }

    /** The caller fills a locked buffer and log_write pins it: no disk write, not evictable. */
    method Pin(p: nat, i: nat, data: Block)
      requires Valid() && i < NBUF && bufs[i].holder == Some(p) && bufs[i].valid
      modifies this`bufs, this`view
      ensures Valid()
      ensures bufs == old(bufs)[i := old(bufs)[i].(data := data, dirty := true)]
      ensures bufs[i].blockno < |disk| && view == old(view)[bufs[i].blockno := data]
    {
      assert BufferCoherent(bufs[i], view);
      PinKeepsCoherent(bufs, disk, view, i, data);
      bufs := bufs[i := bufs[i].(data := data, dirty := true)];
      view := view[bufs[i].blockno := data];
    }

    /** brelse: unlock, drop the reference, and if it was the last move the buffer to the front. */
    method Brelse(p: nat, i: nat)
      requires Valid() && i < NBUF && bufs[i].holder == Some(p) && bufs[i].refcnt > 0
      modifies this`bufs, this`nxt, this`prv, this`order
      ensures Valid()
      ensures bufs == old(bufs)[i := old(bufs)[i].(holder := None, refcnt := old(bufs)[i].refcnt - 1)]
      ensures if bufs[i].refcnt == 0 then Fronted(old(order), order, i) else order == old(order)
    {
      Unlock(p, i);
      assert i in order;
      ghost var k :| 0 <= k < NBUF && order[k] == i;
      if bufs[i].refcnt == 0 {
        MoveToFront(i, k);
      }
    }

    method Unlock(p: nat, i: nat)
      requires Valid() && i < NBUF && bufs[i].holder == Some(p) && bufs[i].refcnt > 0
      modifies this`bufs
      ensures Valid()
      ensures bufs == old(bufs)[i := old(bufs)[i].(holder := None, refcnt := old(bufs)[i].refcnt - 1)]
    {
      UpdateKeepsCoherent(bufs, disk, view, i, bufs[i].(holder := None, refcnt := bufs[i].refcnt - 1));
      bufs := bufs[i := bufs[i].(holder := None)];
      bufs := bufs[i := bufs[i].(refcnt := bufs[i].refcnt - 1)];
      assert bufs == old(bufs[i := bufs[i].(holder := None, refcnt := bufs[i].refcnt - 1)]);
    }

    method MoveToFront(i: nat, ghost k: nat)
      requires Links(nxt, prv, order) && Permutation(order) && k < NBUF && order[k] == i
      modifies this`nxt, this`prv, this`order
      ensures Links(nxt, prv, order) && Permutation(order) && Fronted(old(order), order, i)
    {
      ToFrontMoves(order, k);
      Unlink(nxt, prv, order, k);
      Removed(order, k);
      ToFrontKeepsPermutation(order, k);
      assert nxt[order[k]] == After(order, k) && nxt[i] != i;
      prv := prv[nxt[i] := prv[i]];
      nxt := nxt[prv[i] := nxt[i]];
      LinkFront(nxt, prv, Without(order, k), i);
      nxt := nxt[i := nxt[HEAD]];
      prv := prv[i := HEAD];
      prv := prv[nxt[i] := i];
      nxt := nxt[HEAD := i];
      order := ToFront(order, k);
    }
  }
}
