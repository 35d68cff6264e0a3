/**
 * The code of log.c over the buffer cache. `cache.images` records the disk after every single block
 * write, so a statement about all of them is a statement about a crash at any point.
 */
module Log {
  import opened Blocks
  import opened Options
  import opened RedoLog
  import opened Sequences
  import opened BufferCache

  ghost function BlocksFrom(lh: seq<nat>, from: nat): set<nat> {
    set i | from <= i < |lh| :: lh[i]
  }

  lemma {:induction false} BlocksFromBound(lh: seq<nat>, from: nat)
    requires from <= |lh|
    ensures |BlocksFrom(lh, from)| <= |lh| - from
    decreases |lh| - from
  {
    if from < |lh| {
      BlocksFromBound(lh, from + 1);
      assert BlocksFrom(lh, from) == BlocksFrom(lh, from + 1) + {lh[from]};
    }
  }

  /** The blocks with a dirty buffer are exactly `blocks`. */
  ghost predicate PinnedExactly(bufs: seq<Buf>, blocks: set<nat>) {
    forall b :: Pinned(bufs, b) <==> b in blocks
  }

  /** The blocks some process has a buffer of. */
  ghost function InUse(bufs: seq<Buf>): set<nat> {
    set i | 0 <= i < |bufs| && bufs[i].refcnt > 0 :: bufs[i].blockno
  }

  /** The blocks whose buffers bget may not recycle. */
  ghost function Busy(bufs: seq<Buf>): set<nat> {
    set i | 0 <= i < |bufs| && !bufs[i].Recyclable() :: bufs[i].blockno
  }

  /** The blocks with a dirty buffer are exactly `pinned`, and processes have buffers of exactly `used`. */
  ghost predicate Shared(bufs: seq<Buf>, pinned: set<nat>, used: set<nat>) {
    PinnedExactly(bufs, pinned) && InUse(bufs) == used
  }

  /** Fewer than NBUF blocks are pinned or in use, so that bget can recycle a buffer. */
  ghost predicate Room(pinned: set<nat>, used: set<nat>) {
    |pinned + used| < NBUF
  }

  /** Nothing happened to the buffers that were in use. */
  ghost predicate Undisturbed(bufs0: seq<Buf>, bufs: seq<Buf>) {
    |bufs0| == |bufs| && forall i :: 0 <= i < |bufs0| && bufs0[i].refcnt > 0 ==> bufs[i] == bufs0[i]
  }

  /** Nothing happened to any buffer but those in `own`. */
  ghost predicate OnlyAt(bufs0: seq<Buf>, bufs: seq<Buf>, own: set<nat>) {
    |bufs0| == |bufs| && forall k :: 0 <= k < |bufs| && k !in own ==> bufs[k] == bufs0[k]
  }

  ghost predicate Unused(bufs: seq<Buf>, own: set<nat>) {
    forall i :: i in own ==> i < |bufs| && bufs[i].refcnt == 0
  }

  /** One disk write, of `x` to block `b`, recorded in `images`. */
  ghost predicate Wrote(b: nat, x: Block, d0: Disk, v0: Disk, images0: seq<Disk>, d: Disk, v: Disk, images: seq<Disk>) {
    b < |d0| == |v0| && d == d0[b := x] && v == v0[b := x] && images == images0 + [d]
  }

  lemma OnlyOwn(bufs0: seq<Buf>, bufs1: seq<Buf>, bufs2: seq<Buf>, own: set<nat>)
    requires OnlyAt(bufs0, bufs1, own) && OnlyAt(bufs1, bufs2, own) && Unused(bufs0, own)
    ensures Undisturbed(bufs0, bufs2)
  {
  }

  lemma UndisturbedTwice(bufs0: seq<Buf>, bufs1: seq<Buf>, bufs2: seq<Buf>)
    requires Undisturbed(bufs0, bufs1) && Undisturbed(bufs1, bufs2)
    ensures Undisturbed(bufs0, bufs2)
  {
  }

  lemma SharedIsBusy(bufs: seq<Buf>, pinned: set<nat>, used: set<nat>)
    requires Shared(bufs, pinned, used)
    ensures Busy(bufs) == pinned + used
  {
    forall b
      ensures b in Busy(bufs) <==> b in pinned || b in used
    {
      if b in pinned {
        assert Pinned(bufs, b);
      }
      if i :| 0 <= i < |bufs| && bufs[i].dirty && bufs[i].blockno == b {
        assert Pinned(bufs, b) && !bufs[i].Recyclable();
      }
    }
  }

  lemma CleanOnDisk(bufs: seq<Buf>, disk: Disk, view: Disk, pinned: set<nat>, used: set<nat>, b: nat)
    requires Shared(bufs, pinned, used) && Coherent(bufs, disk, view) && b < |disk| && b !in pinned
    ensures |view| == |disk| && disk[b] == view[b]
  {
    assert !Pinned(bufs, b);
  }

  lemma AllClean(bufs: seq<Buf>, disk: Disk, view: Disk, used: set<nat>)
    requires Shared(bufs, {}, used) && Coherent(bufs, disk, view)
    ensures disk == view
  {
    forall b | 0 <= b < |disk|
      ensures disk[b] == view[b]
    {
      CleanOnDisk(bufs, disk, view, {}, used, b);
    }
  }

  /** A buffer nobody used is taken for block `b`. */
  lemma TakeShared(bufs: seq<Buf>, i: nat, buf: Buf, pinned: set<nat>, used: set<nat>)
    requires Shared(bufs, pinned, used) && i < |bufs| && bufs[i].refcnt == 0 && buf.refcnt > 0
    requires buf.dirty == bufs[i].dirty && (buf.dirty ==> buf.blockno == bufs[i].blockno)
    ensures Shared(bufs[i := buf], pinned, used + {buf.blockno})
  {
    PinnedUnchanged(bufs, i, buf);
    var bufs' := bufs[i := buf];
    forall b
      ensures b in InUse(bufs') <==> b in used + {buf.blockno}
    {
      if b in used {
        var j :| 0 <= j < |bufs| && bufs[j].refcnt > 0 && bufs[j].blockno == b;
        assert bufs'[j].refcnt > 0;
      }
      if j :| 0 <= j < |bufs'| && bufs'[j].refcnt > 0 && bufs'[j].blockno == b && j != i {
        assert bufs[j].refcnt > 0;
      }
      assert bufs'[i].refcnt > 0;
    }
  }

  /** The only reference to buffer `i` goes. */
  lemma DropShared(bufs: seq<Buf>, disk: Disk, view: Disk, i: nat, buf: Buf, pinned: set<nat>, used: set<nat>)
    requires Shared(bufs, pinned, used) && Unique(bufs) && Coherent(bufs, disk, view)
    requires i < |bufs| && bufs[i].refcnt > 0 && buf.refcnt == 0
    requires buf.dirty == bufs[i].dirty && buf.blockno == bufs[i].blockno
    ensures Shared(bufs[i := buf], pinned, used - {buf.blockno})
  {
    PinnedUnchanged(bufs, i, buf);
    var bufs' := bufs[i := buf];
    assert forall j :: 0 <= j < |bufs| ==> BufferCoherent(bufs[j], view);
    forall b
      ensures b in InUse(bufs') <==> b in used - {buf.blockno}
    {
      if b in used - {buf.blockno} {
        var j :| 0 <= j < |bufs| && bufs[j].refcnt > 0 && bufs[j].blockno == b;
        assert bufs'[j].refcnt > 0;
      }
      if j :| 0 <= j < |bufs'| && bufs'[j].refcnt > 0 && bufs'[j].blockno == b {
        assert bufs[j].refcnt > 0;
      }
    }
  }

  lemma {:induction false} SurjectionBound(ixs: set<nat>, bufs: seq<Buf>, blocks: set<nat>)
    requires forall b :: b in blocks ==> exists i :: i in ixs && i < |bufs| && bufs[i].blockno == b
    ensures |blocks| <= |ixs|
    decreases |ixs|
  {
    if blocks != {} {
      var b :| b in blocks;
      var i :| i in ixs && i < |bufs| && bufs[i].blockno == b;
      forall c | c in blocks - {b}
        ensures exists j :: j in ixs - {i} && j < |bufs| && bufs[j].blockno == c
      {
        var j :| j in ixs && j < |bufs| && bufs[j].blockno == c;
        assert j in ixs - {i};
      }
      SurjectionBound(ixs - {i}, bufs, blocks - {b});
    }
  }

  lemma AllBusy(bufs: seq<Buf>, k: nat)
    requires |bufs| == NBUF && |Busy(bufs)| >= NBUF && k < NBUF
    ensures !bufs[k].Recyclable()
  {
    if bufs[k].Recyclable() {
      var all := FullSet(NBUF);
      var others := all - {k};
      forall b | b in Busy(bufs)
        ensures exists i :: i in others && i < |bufs| && bufs[i].blockno == b
      {
        var i :| 0 <= i < |bufs| && !bufs[i].Recyclable() && bufs[i].blockno == b;
        assert i in others;
      }
      SurjectionBound(others, bufs, Busy(bufs));
    }
  }

  /**
   * When bget finds a buffer, whoever else is using the cache: exactly when the block's own buffer is
   * pinned or in use, or the blocks that are pinned or in use number fewer than NBUF. Otherwise it panics.
   */
  lemma BgetFinds(bufs: seq<Buf>, order: seq<nat>, disk: Disk, view: Disk, b: nat)
    requires |bufs| == NBUF && Permutation(order) && Unique(bufs) && Coherent(bufs, disk, view)
    ensures Chosen(bufs, order, b).Some? <==> b in Busy(bufs) || |Busy(bufs)| < NBUF
  {
    forall i | 0 <= i < NBUF && !bufs[i].Recyclable()
      ensures bufs[i].dev == ROOTDEV && bufs[i].blockno in Busy(bufs)
    {
      assert BufferCoherent(bufs[i], view);
    }
    if |Busy(bufs)| < NBUF {
      SomeBufferFree(bufs, order, b, Busy(bufs));
    } else if b in Busy(bufs) {
      var i :| 0 <= i < |bufs| && !bufs[i].Recyclable() && bufs[i].blockno == b;
      assert i in order;
    } else {
      forall k | 0 <= k < NBUF
        ensures !bufs[k].Recyclable() && !bufs[k].Holds(b)
      {
        AllBusy(bufs, k);
      }
    }
  }

  /** What bread of a block nobody has gets: a buffer nobody has, dirty only if it is the block's own. */
  lemma ChosenUnused(bufs: seq<Buf>, order: seq<nat>, disk: Disk, view: Disk, b: nat, pinned: set<nat>, used: set<nat>)
    requires |bufs| == NBUF && Permutation(order) && Unique(bufs) && Coherent(bufs, disk, view) && FreeUnlocked(bufs)
    requires Shared(bufs, pinned, used) && b !in used
    ensures Chosen(bufs, order, b).Some? <==> b in pinned || Room(pinned, used)
    ensures var r := Chosen(bufs, order, b);
            r.Some? ==> r.value < NBUF && bufs[r.value].refcnt == 0 && bufs[r.value].holder == None &&
                        (bufs[r.value].Holds(b) || !bufs[r.value].dirty)
  {
    SharedIsBusy(bufs, pinned, used);
    BgetFinds(bufs, order, disk, view, b);
    assert forall k :: 0 <= k < NBUF && bufs[k].Holds(b) ==> bufs[k].refcnt == 0;
  }

  /** A crash at any write from the `from`-th on recovers to the home blocks of `goal`. */
  ghost predicate AllRecoverTo(L: Layout, images: seq<Disk>, from: nat, goal: Disk) {
    forall k :: from <= k < |images| ==> LegalDisk(L, images[k]) && SameHome(L, Recovered(L, images[k]), goal)
  }

  /** Buffer `i` is locked by `p`, alone, and shows the latest content of block `b`. */
  ghost predicate Shows(buf: Buf, p: nat, b: nat, x: Block) {
    buf.Holds(b) && buf.valid && buf.data == x && buf.holder == Some(p) && buf.refcnt == 1
  }

  /** bread of a block nobody has, once bget has chosen buffer `i`. */
  lemma ReadTakes(bufs0: seq<Buf>, bufs: seq<Buf>, i: nat, p: nat, b: nat, x: Block, pinned: set<nat>, used: set<nat>)
    requires Shared(bufs0, pinned, used) && i < |bufs0| && bufs0[i].refcnt == 0
    requires bufs0[i].Holds(b) || !bufs0[i].dirty
    requires bufs == bufs0[i := Claimed(bufs0[i], b).(valid := true, holder := Some(p), data := x)]
    ensures Unused(bufs0, {i}) && OnlyAt(bufs0, bufs, {i})
    ensures Shows(bufs[i], p, b, x) && Shared(bufs, pinned, used + {b})
  {
    TakeShared(bufs0, i, bufs[i], pinned, used);
  }

  lemma WriteUnpins(bufs: seq<Buf>, i: nat, buf: Buf)
    requires Unique(bufs) && i < |bufs| && bufs[i].dev == ROOTDEV && !buf.dirty
    requires forall j :: 0 <= j < |bufs| && bufs[j].dirty ==> bufs[j].dev == ROOTDEV
    ensures forall b :: Pinned(bufs[i := buf], b) <==> Pinned(bufs, b) && b != bufs[i].blockno
  {
    var bufs' := bufs[i := buf];
    forall b
      ensures Pinned(bufs', b) <==> Pinned(bufs, b) && b != bufs[i].blockno
    {
      if j :| 0 <= j < |bufs| && bufs[j].dirty && bufs[j].blockno == b && j != i {
        assert bufs'[j].dirty && bufs'[j].blockno == b;
      }
      if j :| 0 <= j < |bufs'| && bufs'[j].dirty && bufs'[j].blockno == b {
        assert bufs[j].dirty && bufs[j].blockno == b;
      }
    }
  }

  /** bwrite of a buffer in use: its block is no longer pinned. */
  lemma WriteShared(bufs: seq<Buf>, disk: Disk, view: Disk, i: nat, buf: Buf, pinned: set<nat>, used: set<nat>)
    requires Shared(bufs, pinned, used) && Unique(bufs) && Coherent(bufs, disk, view)
    requires i < |bufs| && bufs[i].dev == ROOTDEV
    requires !buf.dirty && buf.blockno == bufs[i].blockno && buf.refcnt == bufs[i].refcnt
    ensures Shared(bufs[i := buf], pinned - {buf.blockno}, used)
  {
    assert forall j :: 0 <= j < |bufs| ==> BufferCoherent(bufs[j], view);
    WriteUnpins(bufs, i, buf);
    var bufs' := bufs[i := buf];
    assert forall j :: 0 <= j < |bufs| ==> bufs'[j].refcnt == bufs[j].refcnt && bufs'[j].blockno == bufs[j].blockno;
    assert InUse(bufs') == InUse(bufs);
  }

  /** `images` continues `images0`, and a crash at any of the added writes recovers to `goal`. */
  ghost predicate ExtendedBy(L: Layout, images0: seq<Disk>, images: seq<Disk>, goal: Disk) {
    images0 <= images && AllRecoverTo(L, images, |images0|, goal)
  }

  lemma ExtendOne(L: Layout, images0: seq<Disk>, images: seq<Disk>, d: Disk, goal: Disk)
    requires ExtendedBy(L, images0, images, goal)
    requires LegalDisk(L, d) && SameHome(L, Recovered(L, d), goal)
    ensures ExtendedBy(L, images0, images + [d], goal)
  {
  }

  /** The disk after each write of install_trans from disk `d0`. */
  ghost predicate InstallTrace(L: Layout, d0: Disk, lh: seq<nat>, n: nat, images0: seq<Disk>, images: seq<Disk>)
    requires L.Fits(d0) && LegalHeader(L, lh) && n <= |lh|
  {
    && |images| == |images0| + n && images0 <= images
    && forall j :: |images0| <= j < |images| ==> images[j] == InstallPrefix(L, d0, lh, j - |images0| + 1)
  }

  lemma InstallTraceStep(L: Layout, d0: Disk, lh: seq<nat>, n: nat, images0: seq<Disk>, images: seq<Disk>)
    requires L.Fits(d0) && LegalHeader(L, lh) && n < |lh| && InstallTrace(L, d0, lh, n, images0, images)
    ensures InstallTrace(L, d0, lh, n + 1, images0, images + [InstallPrefix(L, d0, lh, n + 1)])
  {
  }

  lemma InstallTraceRecovers(L: Layout, d0: Disk, images0: seq<Disk>, images: seq<Disk>)
    requires LegalDisk(L, d0) && InstallTrace(L, d0, Header(L, d0), |Header(L, d0)|, images0, images)
    ensures ExtendedBy(L, images0, images, Recovered(L, d0))
  {
    forall j | |images0| <= j < |images|
      ensures LegalDisk(L, images[j]) && SameHome(L, Recovered(L, images[j]), Recovered(L, d0))
    {
      InstallPrefixInvisible(L, d0, j - |images0| + 1);
    }
  }

  /** The first `n` added writes recover to `before`, all later ones to `after`. */
  ghost predicate AtomicWrites(L: Layout, images0: seq<Disk>, images: seq<Disk>, n: nat, before: Disk, after: Disk) {
    && images0 <= images
    && forall k :: |images0| <= k < |images| ==>
                     && LegalDisk(L, images[k])
                     && SameHome(L, Recovered(L, images[k]), if k < |images0| + n then before else after)
  }

  lemma JoinTraces(L: Layout, images0: seq<Disk>, images1: seq<Disk>, images2: seq<Disk>, before: Disk,
                   committed: Disk, after: Disk)
    requires |images0| < |images1| && SameHome(L, committed, after)
    requires ExtendedBy(L, images0, images1[..|images1| - 1], before)
    requires LegalDisk(L, images1[|images1| - 1]) && SameHome(L, Recovered(L, images1[|images1| - 1]), after)
    requires ExtendedBy(L, images1, images2, committed)
    ensures AtomicWrites(L, images0, images2, |images1| - 1 - |images0|, before, after)
  {
    forall k | |images0| <= k < |images1| - 1
      ensures LegalDisk(L, images2[k]) && SameHome(L, Recovered(L, images2[k]), before)
    {
      assert images2[k] == images1[..|images1| - 1][k];
    }
    assert images2[|images1| - 1] == images1[|images1| - 1];
  }

  lemma UnpinnedOnDisk(bufs: seq<Buf>, disk: Disk, view: Disk, lh: seq<nat>)
    requires Coherent(bufs, disk, view) && PinnedExactly(bufs, BlocksFrom(lh, 0))
    ensures forall b :: 0 <= b < |disk| && b !in lh ==> disk[b] == view[b]
  {
    forall b | 0 <= b < |disk| && b !in lh
      ensures disk[b] == view[b]
    {
      assert !Pinned(bufs, b);
    }
  }

  /** write_log after `tail` iterations from disk `d0` and contents `v0`. */
  ghost predicate Copied(L: Layout, d0: Disk, v0: Disk, lh: seq<nat>, tail: nat, d: Disk, v: Disk)
  {
    && LegalHeader(L, lh) && tail <= |lh| && LegalDisk(L, d0) && |v0| == L.size
    && LegalDisk(L, d) && HeaderCount(L, d) == 0
    && SameHome(L, d, d0) && SameHome(L, v, v0)
    && SameHome(L, Recovered(L, d), Recovered(L, d0))
    && (forall i :: 0 <= i < tail ==> Slot(L, d, i) == v0[lh[i]])
  }

  lemma CopiedStep(L: Layout, d0: Disk, v0: Disk, lh: seq<nat>, tail: nat, d: Disk, v: Disk)
    requires Copied(L, d0, v0, lh, tail, d, v) && tail < |lh|
    ensures var slot := L.start + 1 + tail;
            Copied(L, d0, v0, lh, tail + 1, d[slot := v[lh[tail]]], v[slot := v[lh[tail]]])
  {
    LogBlockWriteInvisible(L, d, tail, v[lh[tail]]);
  }

  lemma SlotNotHome(L: Layout, lh: seq<nat>, tail: nat)
    requires LegalHeader(L, lh) && tail < |lh|
    ensures forall i :: 0 <= i < |lh| ==> lh[i] != L.start + 1 + tail
    ensures lh[tail] in BlocksFrom(lh, 0) && lh[tail] in BlocksFrom(lh, tail)
    ensures forall from: nat :: L.start + 1 + tail !in BlocksFrom(lh, from)
  {
    assert L.InLog(L.start + 1 + tail);
  }

  /** While a commit installs, the blocks not yet installed are pinned; in recovery none is. */
  ghost function StillPinned(lh: seq<nat>, tail: nat, pinned: bool): set<nat> {
    if pinned then BlocksFrom(lh, tail) else {}
  }

  lemma NoneLeft(lh: seq<nat>, pinned: bool)
    ensures StillPinned(lh, |lh|, pinned) == {}
  {
  }

  lemma DropFirst(lh: seq<nat>, tail: nat)
    requires tail < |lh|
    ensures Distinct(lh) ==> BlocksFrom(lh, tail) - {lh[tail]} == BlocksFrom(lh, tail + 1)
  {
  }

  /** The blocks `reading` are home blocks that the transaction does not touch. */
  ghost predicate Apart(L: Layout, lh: seq<nat>, reading: set<nat>) {
    forall b :: b in reading ==> L.IsHome(b) && b !in lh
  }

  lemma HeadApart(L: Layout, lh: seq<nat>, reading: set<nat>)
    requires L.Valid() && LegalHeader(L, lh) && Apart(L, lh, reading)
    ensures L.start !in BlocksFrom(lh, 0) && L.start !in reading
  {
    assert L.InLog(L.start);
  }

  /** There are buffers for install_trans: during a commit next to the pinned blocks, else for two. */
  ghost predicate Roomy(lh: seq<nat>, pinned: bool, reading: set<nat>) {
    if pinned then Distinct(lh) && Room(BlocksFrom(lh, 0), reading) else |reading| + 1 < NBUF
  }

  lemma SubsetSize(a: set<nat>, b: set<nat>)
    requires a <= b
    ensures |a| <= |b|
  {
    assert b == a + (b - a);
  }

  lemma StaysRoomy(lh: seq<nat>, tail: nat, pinned: bool, reading: set<nat>)
    requires Roomy(lh, pinned, reading) && tail <= |lh|
    ensures Room(StillPinned(lh, tail, pinned), reading) && Room({}, reading)
    ensures !pinned ==> forall b :: Room({}, reading + {b})
  {
    if pinned {
      SubsetSize(BlocksFrom(lh, tail) + reading, BlocksFrom(lh, 0) + reading);
      SubsetSize({} + reading, BlocksFrom(lh, 0) + reading);
    } else {
      assert {} + reading == reading;
      forall b: nat
        ensures Room({}, reading + {b})
      {
        assert {} + (reading + {b}) == reading + {b};
      }
    }
  }

  /** Two blocks of a disk of `n` that nobody has, `slot` not pinned, and buffers for both. */
  ghost predicate Ready(slot: nat, home: nat, pinned: set<nat>, reading: set<nat>, n: nat) {
    && slot < n && home < n && slot != home && slot !in pinned && slot !in reading && home !in reading
    && Room(pinned, reading) && (home in pinned || Room(pinned, reading + {slot}))
  }

  /** What one iteration of install_trans finds. */
  lemma InstallReady(L: Layout, lh: seq<nat>, tail: nat, pinned: bool, reading: set<nat>)
    requires L.Valid() && LegalHeader(L, lh) && tail < |lh| && Roomy(lh, pinned, reading) && Apart(L, lh, reading)
    ensures Ready(L.start + 1 + tail, lh[tail], StillPinned(lh, tail, pinned), reading, L.size)
    ensures StillPinned(lh, tail, pinned) - {lh[tail]} == StillPinned(lh, tail + 1, pinned)
  {
    SlotNotHome(L, lh, tail);
    StaysRoomy(lh, tail, pinned, reading);
    DropFirst(lh, tail);
    assert L.InLog(L.start + 1 + tail);
    hide Room;
  }

  /** What one iteration of install_trans does. */
  lemma InstallWrites(L: Layout, lh: seq<nat>, tail: nat, d0: Disk, d1: Disk, v1: Disk, images1: seq<Disk>,
                      d2: Disk, v2: Disk, images2: seq<Disk>)
    requires L.Fits(d0) && LegalHeader(L, lh) && tail < |lh| && d1 == InstallPrefix(L, d0, lh, tail)
    requires |v1| == |d1| && d1[L.start + 1 + tail] == v1[L.start + 1 + tail]
    requires Wrote(lh[tail], v1[L.start + 1 + tail], d1, v1, images1, d2, v2, images2)
    ensures d2 == InstallPrefix(L, d0, lh, tail + 1) && images2 == images1 + [d2]
  {
  }

  /** Recovery is done: the disk holds what it was to recover to, and an empty log. */
  ghost predicate Cleared(L: Layout, d0: Disk, d: Disk, v: Disk) {
    LegalDisk(L, d0) && d == v == Recovered(L, d0) && LegalDisk(L, d) && HeaderCount(L, d) == 0
  }

  /** write_head with an empty header, after install_trans. */
  lemma ClearHeader(L: Layout, d0: Disk, d1: Disk, images0: seq<Disk>, images1: seq<Disk>,
                    bufs: seq<Buf>, disk: Disk, view: Disk, v1: Disk, images: seq<Disk>, reading: set<nat>)
    requires LegalDisk(L, d0) && d1 == InstallPrefix(L, d0, Header(L, d0), |Header(L, d0)|)
    requires InstallTrace(L, d0, Header(L, d0), |Header(L, d0)|, images0, images1)
    requires Wrote(L.start, EncodeHeader(d1[L.start], []), d1, v1, images1, disk, view, images)
    requires Shared(bufs, {}, reading) && Coherent(bufs, disk, view)
    ensures Cleared(L, d0, disk, view) && ExtendedBy(L, images0, images, Recovered(L, d0))
  {
    AllClean(bufs, disk, view, reading);
    InstallTraceRecovers(L, d0, images0, images1);
    ClearInvisible(L, d0);
    ExtendOne(L, images0, images1, disk, Recovered(L, d0));
    hide InstallPrefix, InstallTrace, Shared, Coherent, ExtendedBy, EncodeHeader;
  }

  /** commit with nothing logged. */
  lemma NothingLogged(L: Layout, bufs: seq<Buf>, disk: Disk, view: Disk, images: seq<Disk>, lh: seq<nat>,
                      reading: set<nat>)
    requires lh == [] && Shared(bufs, BlocksFrom(lh, 0), reading) && Coherent(bufs, disk, view) && LegalDisk(L, disk)
    ensures Shared(bufs, {}, reading) && disk == view
    ensures AtomicWrites(L, images, images, 0, Recovered(L, disk), view)
  {
    assert BlocksFrom(lh, 0) == {};
    AllClean(bufs, disk, view, reading);
  }

  lemma HeaderDecodes(L: Layout, d: Disk, blocks: seq<nat>)
    requires LegalDisk(L, d) && |blocks| == HeaderCount(L, d)
    requires forall j :: 0 <= j < |blocks| ==> blocks[j] == GetWord(d[L.start], j + 1)
    ensures blocks == Header(L, d)
  {
  }

  class Log {
    const cache: Cache
    const L: Layout
    var lh: seq<nat>       // lh.block[0..lh.n]
    var outstanding: nat

    constructor (cache: Cache, L: Layout)
      ensures this.cache == cache && this.L == L && lh == [] && outstanding == 0
    {
      this.cache, this.L, lh, outstanding := cache, L, [], 0;
    }

    /** log_write: absorb or append the block number and pin the buffer; `ok` is false for its two panics. */
    method LogWrite(p: nat, i: nat, data: Block) returns (ok: bool)
      requires cache.Valid() && i < NBUF && cache.bufs[i].holder == Some(p) && cache.bufs[i].valid
      modifies this`lh, cache`bufs, cache`view
      ensures cache.Valid()
      ensures ok <==> old(|lh|) < LOGSIZE && old(|lh|) < L.nlog - 1 && outstanding >= 1
      ensures !ok ==> lh == old(lh) && cache.bufs == old(cache.bufs) && cache.view == old(cache.view)
      ensures ok ==> var b := old(cache.bufs)[i].blockno;
                     && b < |cache.view| && cache.view == old(cache.view)[b := data]
                     && cache.bufs == old(cache.bufs)[i := old(cache.bufs)[i].(data := data, dirty := true)]
                     && (b in old(lh) ==> lh == old(lh))
                     && (b !in old(lh) ==> lh == old(lh) + [b])
    {
      if |lh| >= LOGSIZE || |lh| >= L.nlog - 1 || outstanding < 1 {
        return false;
      }
      var b := cache.bufs[i].blockno;
      var k := 0;
      while k < |lh| && lh[k] != b
        invariant 0 <= k <= |lh| && forall j :: 0 <= j < k ==> lh[j] != b
      {
        k := k + 1;
      }
      if k == |lh| {
        lh := lh + [b];
      }
      cache.Pin(p, i, data);
      return true;
    }

    /** bread of a block nobody has; None is the "no buffers" panic of bget. */
    method Read(p: nat, b: nat, ghost pinned: set<nat>, ghost used: set<nat>) returns (r: Option<nat>)
      requires cache.Valid() && b < |cache.disk| && Shared(cache.bufs, pinned, used) && b !in used
      modifies cache`bufs
      ensures cache.Valid()
      ensures r.Some? <==> b in pinned || Room(pinned, used)
      ensures r.None? ==> cache.bufs == old(cache.bufs)
      ensures r.Some? ==> Unused(old(cache.bufs), {r.value}) && OnlyAt(old(cache.bufs), cache.bufs, {r.value})
      ensures r.Some? ==> r.value < NBUF && Shows(cache.bufs[r.value], p, b, cache.view[b])
      ensures r.Some? ==> Shared(cache.bufs, pinned, used + {b})
    {
      ghost var bufs0 := cache.bufs;
      ChosenUnused(bufs0, cache.order, cache.disk, cache.view, b, pinned, used);
      hide Room, Shared, Links, Permutation, Unique, Coherent, FreeUnlocked, Chosen, Claimed, Unused, OnlyAt, Shows;
      var locked;
      r, locked := cache.Bread(p, b);
      if r.Some? {
        ReadTakes(bufs0, cache.bufs, r.value, p, b, cache.view[b], pinned, used);
      }
    }

    /** bread of a log slot, then of a home block, which both loops below start with. */
    method ReadPair(p: nat, slot: nat, home: nat, ghost pinned: set<nat>, ghost reading: set<nat>)
      returns (ok: bool, i: nat, j: nat)
      requires cache.Valid() && slot < |cache.disk| && home < |cache.disk| && slot != home
      requires Shared(cache.bufs, pinned, reading) && slot !in pinned + reading && home !in reading
      requires home in pinned || Room(pinned, reading + {slot})
      modifies cache`bufs
      ensures cache.Valid() && (ok <==> Room(pinned, reading))
      ensures !ok ==> cache.bufs == old(cache.bufs)
      ensures ok ==> Unused(old(cache.bufs), {i, j}) && OnlyAt(old(cache.bufs), cache.bufs, {i, j})
      ensures ok ==> i < NBUF && j < NBUF && i != j && Shared(cache.bufs, pinned, reading + {slot, home})
      ensures ok ==> Shows(cache.bufs[i], p, slot, cache.view[slot]) && Shows(cache.bufs[j], p, home, cache.view[home])
    {
      hide Room, Shared, Links, Permutation, Unique, Coherent, FreeUnlocked;
      var r := Read(p, slot, pinned, reading);
      if r.None? {
        return false, 0, 0;
      }
      var r2 := Read(p, home, pinned, reading + {slot});
      assert reading + {slot} + {home} == reading + {slot, home};
      return true, r.value, r2.value;
    }

    /** The body of write_log's loop: copy the cached home block into its log slot and write the slot. */
    method CopyToSlot(p: nat, slot: nat, home: nat, ghost pinned: set<nat>, ghost reading: set<nat>) returns (ok: bool)
      requires cache.Valid() && slot < |cache.disk| && home < |cache.disk| && slot != home
      requires Shared(cache.bufs, pinned, reading) && slot !in pinned + reading && home !in reading && home in pinned
      modifies cache
      ensures cache.Valid() && Shared(cache.bufs, pinned, reading) && Undisturbed(old(cache.bufs), cache.bufs)
      ensures ok <==> Room(pinned, reading)
      ensures !ok ==>
                cache.disk == old(cache.disk) && cache.view == old(cache.view) && cache.images == old(cache.images)
      ensures ok ==> Wrote(slot, old(cache.view)[home], old(cache.disk), old(cache.view), old(cache.images),
                           cache.disk, cache.view, cache.images)
    {
      hide Room, Shared, Links, Permutation, Unique, Coherent, FreeUnlocked, Wrote, Unused, OnlyAt;
      var to, from;
      ok, to, from := ReadPair(p, slot, home, pinned, reading);
      if ok {
        ghost var bufs1 := cache.bufs;
        Write2(p, to, from, cache.bufs[from].data, pinned, reading + {slot, home});
        OnlyOwn(old(cache.bufs), bufs1, cache.bufs, {to, from});
        assert pinned - {slot} == pinned && reading + {slot, home} - {home} - {slot} == reading;
      }
    }

    /** The body of install_trans's loop: copy the log slot over the home block and write that. */
    method InstallSlot(p: nat, slot: nat, home: nat, ghost pinned: set<nat>, ghost reading: set<nat>)
      requires cache.Valid() && Shared(cache.bufs, pinned, reading)
      requires Ready(slot, home, pinned, reading, |cache.disk|) && slot < |cache.view|
      modifies cache
      ensures cache.Valid() && Shared(cache.bufs, pinned - {home}, reading) && Undisturbed(old(cache.bufs), cache.bufs)
      ensures Wrote(home, old(cache.view)[slot], old(cache.disk), old(cache.view), old(cache.images),
                    cache.disk, cache.view, cache.images)
    {
      hide Room, Shared, Links, Permutation, Unique, Coherent, FreeUnlocked, Wrote, Unused, OnlyAt;
      var ok, lbuf, dbuf := ReadPair(p, slot, home, pinned, reading);
      ghost var bufs1 := cache.bufs;
      Write2(p, dbuf, lbuf, cache.bufs[lbuf].data, pinned, reading + {slot, home});
      assert {dbuf, lbuf} == {lbuf, dbuf};
      OnlyOwn(old(cache.bufs), bufs1, cache.bufs, {lbuf, dbuf});
      assert reading + {slot, home} - {slot} - {home} == reading;
    }

    /** bwrite of `data` through one of two buffers, then brelse of the other and of that one. */
    method Write2(p: nat, i: nat, other: nat, data: Block, ghost pinned: set<nat>, ghost used: set<nat>)
      requires cache.Valid() && i < NBUF && other < NBUF && i != other && Shared(cache.bufs, pinned, used)
      requires cache.bufs[i].holder == Some(p) && cache.bufs[i].refcnt == 1 && cache.bufs[i].valid
      requires cache.bufs[other].holder == Some(p) && cache.bufs[other].refcnt == 1
      modifies cache
      ensures cache.Valid() && OnlyAt(old(cache.bufs), cache.bufs, {i, other})
      ensures var b, c := old(cache.bufs)[i].blockno, old(cache.bufs)[other].blockno;
              && Shared(cache.bufs, pinned - {b}, used - {c} - {b})
              && Wrote(b, data, old(cache.disk), old(cache.view), old(cache.images), cache.disk, cache.view,
                 cache.images)
    {
      hide Room, Shared, Links, Permutation, Unique, FreeUnlocked;
      Overwrite(p, i, data, pinned, used);
      hide Coherent, Wrote;
      ReleaseOne(p, other, pinned - {old(cache.bufs)[i].blockno}, used);
      ReleaseOne(p, i, pinned - {old(cache.bufs)[i].blockno}, used - {old(cache.bufs)[other].blockno});
    }

    /** bwrite of `data`, then brelse. */
    method Write1(p: nat, i: nat, data: Block, ghost pinned: set<nat>, ghost used: set<nat>)
      requires cache.Valid() && i < NBUF && Shared(cache.bufs, pinned, used)
      requires cache.bufs[i].holder == Some(p) && cache.bufs[i].refcnt == 1 && cache.bufs[i].valid
      modifies cache
      ensures cache.Valid() && OnlyAt(old(cache.bufs), cache.bufs, {i})
      ensures var b := old(cache.bufs)[i].blockno;
              && Shared(cache.bufs, pinned - {b}, used - {b})
              && Wrote(b, data, old(cache.disk), old(cache.view), old(cache.images), cache.disk, cache.view,
                 cache.images)
    {
      hide Room, Shared, Links, Permutation, Unique, FreeUnlocked, Coherent, Wrote;
      Overwrite(p, i, data, pinned, used);
      ReleaseOne(p, i, pinned - {old(cache.bufs)[i].blockno}, used);
    }

    /** bwrite of `data`. */
    method Overwrite(p: nat, i: nat, data: Block, ghost pinned: set<nat>, ghost used: set<nat>)
      requires cache.Valid() && i < NBUF && Shared(cache.bufs, pinned, used)
      requires cache.bufs[i].holder == Some(p) && cache.bufs[i].valid
      modifies cache`bufs, cache`disk, cache`images, cache`view
      ensures cache.Valid()
      ensures cache.bufs == old(cache.bufs)[i := old(cache.bufs)[i].(data := data, dirty := false)]
      ensures var b := old(cache.bufs)[i].blockno;
              && Shared(cache.bufs, pinned - {b}, used)
              && Wrote(b, data, old(cache.disk), old(cache.view), old(cache.images), cache.disk, cache.view,
                 cache.images)
    {
      ghost var bufs0, d0, v0 := cache.bufs, cache.disk, cache.view;
      assert BufferCoherent(bufs0[i], v0) && |v0| == |d0|;
      hide Room, Shared, Links, Permutation, Unique, Coherent, FreeUnlocked;
      cache.Bwrite(p, i, data);
      WriteShared(bufs0, d0, v0, i, cache.bufs[i], pinned, used);
    }

    /** brelse of a buffer used by one process only. */
    method ReleaseOne(p: nat, i: nat, ghost pinned: set<nat>, ghost used: set<nat>)
      requires cache.Valid() && i < NBUF && Shared(cache.bufs, pinned, used)
      requires cache.bufs[i].holder == Some(p) && cache.bufs[i].refcnt == 1
      modifies cache`bufs, cache`nxt, cache`prv, cache`order
      ensures cache.Valid() && Shared(cache.bufs, pinned, used - {old(cache.bufs)[i].blockno})
      ensures OnlyAt(old(cache.bufs), cache.bufs, {i})
    {
      hide Room, Shared, Links, Permutation, Unique, Coherent, FreeUnlocked;
      ghost var bufs0 := cache.bufs;
      cache.Brelse(p, i);
      DropShared(bufs0, cache.disk, cache.view, i, cache.bufs[i], pinned, used);
    }

    /** The header block write_head stores: n, then the first n block numbers, over what was there. */
    method FillHeader(head: Block) returns (data: Block)
      requires |lh| <= LOGSIZE && forall i :: 0 <= i < |lh| ==> lh[i] < 0x1_0000_0000
      ensures data == EncodeHeader(head, lh)
    {
      data := SetWord(head, 0, |lh|);
      for i := 0 to |lh|
        invariant data == EncodeEntries(SetWord(head, 0, |lh|), lh, i)
      {
        data := SetWord(data, i + 1, lh[i]);
      }
    }

    /** write_head: one write, of the header block. */
    method WriteHead(p: nat, ghost pinned: set<nat>, ghost reading: set<nat>)
      requires cache.Valid() && L.Fits(cache.disk) && LegalHeader(L, lh) && Shared(cache.bufs, pinned, reading)
      requires Room(pinned, reading) && L.start !in pinned && L.start !in reading
      modifies cache
      ensures cache.Valid() && Shared(cache.bufs, pinned, reading) && Undisturbed(old(cache.bufs), cache.bufs)
      ensures Wrote(L.start, EncodeHeader(old(cache.disk)[L.start], lh), old(cache.disk), old(cache.view),
                old(cache.images),
                    cache.disk, cache.view, cache.images)
    {
      hide Room, Shared, Links, Permutation, Unique, Coherent, FreeUnlocked, Undisturbed, EncodeHeader, Wrote, OnlyAt,
          Unused;
      CleanOnDisk(cache.bufs, cache.disk, cache.view, pinned, reading, L.start);
      var r := Read(p, L.start, pinned, reading);
      ghost var bufs1 := cache.bufs;
      var data := FillHeader(cache.bufs[r.value].data);
      Write1(p, r.value, data, pinned, reading + {L.start});
      OnlyOwn(old(cache.bufs), bufs1, cache.bufs, {r.value});
      assert reading + {L.start} - {L.start} == reading && pinned - {L.start} == pinned;
    }

    /** The loop of read_head. */
    method CopyHeader(head: Block) returns (blocks: seq<nat>)
      requires GetWord(head, 0) <= LOGSIZE
      ensures |blocks| == GetWord(head, 0) && forall j :: 0 <= j < |blocks| ==> blocks[j] == GetWord(head, j + 1)
    {
      blocks := [];
      for k := 0 to GetWord(head, 0)
        invariant |blocks| == k && forall j :: 0 <= j < k ==> blocks[j] == GetWord(head, j + 1)
      {
        blocks := blocks + [GetWord(head, k + 1)];
      }
    }

    /** read_head: the on-disk header becomes the in-memory one. */
    method ReadHead(p: nat)
      requires cache.Valid() && LegalDisk(L, cache.disk) && Shared(cache.bufs, {}, {})
      modifies this`lh, cache`bufs, cache`nxt, cache`prv, cache`order
      ensures cache.Valid() && Shared(cache.bufs, {}, {})
      ensures lh == Header(L, cache.disk)
    {
      CleanOnDisk(cache.bufs, cache.disk, cache.view, {}, {}, L.start);
      hide Room, Shared, Links, Permutation, Unique, Coherent, FreeUnlocked;
      var i := Read(p, L.start, {}, {});
      lh := CopyHeader(cache.bufs[i.value].data);
      ReleaseOne(p, i.value, {}, {} + {L.start});
      assert {} + {L.start} - {L.start} == {};
      HeaderDecodes(L, cache.disk, lh);
    }

    method CopyNext(p: nat, tail: nat, ghost reading: set<nat>, ghost d0: Disk, ghost v0: Disk) returns (ok: bool)
      requires cache.Valid() && Shared(cache.bufs, BlocksFrom(lh, 0), reading) && Apart(L, lh, reading)
      requires Copied(L, d0, v0, lh, tail, cache.disk, cache.view) && tail < |lh|
      modifies cache
      ensures cache.Valid() && Shared(cache.bufs, BlocksFrom(lh, 0), reading) &&
              Undisturbed(old(cache.bufs), cache.bufs)
      ensures ok <==> Room(BlocksFrom(lh, 0), reading)
      ensures Copied(L, d0, v0, lh, if ok then tail + 1 else tail, cache.disk, cache.view)
      ensures !ok ==>
                cache.disk == old(cache.disk) && cache.view == old(cache.view) && cache.images == old(cache.images)
      ensures ok ==> cache.images == old(cache.images) + [cache.disk]
    {
      CopiedStep(L, d0, v0, lh, tail, cache.disk, cache.view);
      SlotNotHome(L, lh, tail);
      hide Room, Shared, Links, Permutation, Unique, Coherent, FreeUnlocked, Copied, BlocksFrom;
      ok := CopyToSlot(p, L.start + 1 + tail, lh[tail], BlocksFrom(lh, 0), reading);
    }

    /**
     * write_log: every logged block is copied to its slot; no crash meanwhile shows any of it. It panics,
     * at its first bread, exactly when the logged blocks and those others are reading fill the cache.
     */
    method WriteLog(p: nat, ghost reading: set<nat>) returns (ok: bool)
      requires cache.Valid() && LegalDisk(L, cache.disk) && HeaderCount(L, cache.disk) == 0 && LegalHeader(L, lh)
      requires Shared(cache.bufs, BlocksFrom(lh, 0), reading) && Apart(L, lh, reading)
      modifies cache
      ensures cache.Valid() && Shared(cache.bufs, BlocksFrom(lh, 0), reading) &&
              Undisturbed(old(cache.bufs), cache.bufs)
      ensures ok <==> lh == [] || Room(BlocksFrom(lh, 0), reading)
      ensures !ok ==>
                cache.disk == old(cache.disk) && cache.view == old(cache.view) && cache.images == old(cache.images)
      ensures ok ==> Copied(L, old(cache.disk), old(cache.view), lh, |lh|, cache.disk, cache.view)
      ensures ok ==> |cache.images| == old(|cache.images|) + |lh|
      ensures ExtendedBy(L, old(cache.images), cache.images, Recovered(L, old(cache.disk)))
    {
      ok := true;
      ghost var d0, goal, images0 := cache.disk, Recovered(L, cache.disk), cache.images;
      for tail := 0 to |lh|
        invariant cache.Valid() && Shared(cache.bufs, BlocksFrom(lh, 0), reading)
        invariant Undisturbed(old(cache.bufs), cache.bufs)
        invariant tail > 0 ==> Room(BlocksFrom(lh, 0), reading)
        invariant tail == 0 ==> cache.disk == d0 && cache.view == old(cache.view)
        invariant Copied(L, d0, old(cache.view), lh, tail, cache.disk, cache.view)
        invariant |cache.images| == |images0| + tail && ExtendedBy(L, images0, cache.images, goal)
      {
        ghost var images1 := cache.images;
        ok := CopyNext(p, tail, reading, d0, old(cache.view));
        if !ok {
          return;
        }
        ExtendOne(L, images0, images1, cache.disk, goal);
      }
      ok := true;
    }

    method InstallNext(p: nat, tail: nat, ghost pinned: bool, ghost reading: set<nat>, ghost d0: Disk)
      requires cache.Valid() && L.Fits(d0) && LegalHeader(L, lh) && tail < |lh|
      requires Roomy(lh, pinned, reading) && Apart(L, lh, reading)
      requires Shared(cache.bufs, StillPinned(lh, tail, pinned), reading)
      requires cache.disk == InstallPrefix(L, d0, lh, tail)
      modifies cache
      ensures cache.Valid() && Shared(cache.bufs, StillPinned(lh, tail + 1, pinned), reading)
      ensures Undisturbed(old(cache.bufs), cache.bufs)
      ensures cache.disk == InstallPrefix(L, d0, lh, tail + 1)
      ensures cache.images == old(cache.images) + [cache.disk]
    {
      hide Room, Shared, Links, Permutation, Unique, Coherent, FreeUnlocked, Roomy, Apart, StillPinned, InstallPrefix;
      hide Undisturbed, Wrote;
      InstallReady(L, lh, tail, pinned, reading);
      CleanOnDisk(cache.bufs, cache.disk, cache.view, StillPinned(lh, tail, pinned), reading, L.start + 1 + tail);
      ghost var d1, v1, images1 := cache.disk, cache.view, cache.images;
      InstallSlot(p, L.start + 1 + tail, lh[tail], StillPinned(lh, tail, pinned), reading);
      InstallWrites(L, lh, tail, d0, d1, v1, images1, cache.disk, cache.view, cache.images);
    }

    /** install_trans: the writes go home one log slot at a time. */
    method InstallTrans(p: nat, ghost pinned: bool, ghost reading: set<nat>)
      requires cache.Valid() && L.Fits(cache.disk) && LegalHeader(L, lh)
      requires Roomy(lh, pinned, reading) && Apart(L, lh, reading)
      requires Shared(cache.bufs, StillPinned(lh, 0, pinned), reading)
      modifies cache
      ensures cache.Valid() && Shared(cache.bufs, {}, reading) && Undisturbed(old(cache.bufs), cache.bufs)
      ensures cache.disk == InstallPrefix(L, old(cache.disk), lh, |lh|)
      ensures InstallTrace(L, old(cache.disk), lh, |lh|, old(cache.images), cache.images)
    {
      NoneLeft(lh, pinned);
      hide Room, Shared, Links, Permutation, Unique, Coherent, FreeUnlocked, Roomy, Apart, StillPinned;
      for tail := 0 to |lh|
        invariant cache.Valid() && Shared(cache.bufs, StillPinned(lh, tail, pinned), reading)
        invariant Undisturbed(old(cache.bufs), cache.bufs)
        invariant cache.disk == InstallPrefix(L, old(cache.disk), lh, tail)
        invariant InstallTrace(L, old(cache.disk), lh, tail, old(cache.images), cache.images)
      {
        ghost var images0 := cache.images;
        InstallNext(p, tail, pinned, reading, old(cache.disk));
        InstallTraceStep(L, old(cache.disk), lh, tail, old(cache.images), images0);
      }
    }

    /** The second half of commit and of recover_from_log: install, then clear the header. */
    method InstallAndClear(p: nat, ghost pinned: bool, ghost reading: set<nat>)
      requires cache.Valid() && LegalDisk(L, cache.disk) && Header(L, cache.disk) == lh
      requires Roomy(lh, pinned, reading) && Apart(L, lh, reading)
      requires Shared(cache.bufs, StillPinned(lh, 0, pinned), reading)
      modifies this`lh, cache
      ensures cache.Valid() && Shared(cache.bufs, {}, reading) && Undisturbed(old(cache.bufs), cache.bufs) && lh == []
      ensures Cleared(L, old(cache.disk), cache.disk, cache.view)
      ensures ExtendedBy(L, old(cache.images), cache.images, Recovered(L, old(cache.disk)))
    {
      StaysRoomy(lh, |lh|, pinned, reading);
      HeadApart(L, lh, reading);
      hide Room, Shared, Links, Permutation, Unique, Coherent, FreeUnlocked, Roomy, StillPinned, ExtendedBy,
          InstallTrace;
      hide Undisturbed, Wrote, Cleared;
      InstallTrans(p, pinned, reading);
      ghost var bufs1, d1, v1, images1 := cache.bufs, cache.disk, cache.view, cache.images;
      lh := [];
      WriteHead(p, {}, reading);
      UndisturbedTwice(old(cache.bufs), bufs1, cache.bufs);
      ClearHeader(L, old(cache.disk), d1, old(cache.images), images1, cache.bufs, cache.disk, cache.view, v1,
        cache.images, reading);
    }

    /** The first half of commit: up to and including the header write, "the real commit". */
    method LogAndWriteHead(p: nat, ghost reading: set<nat>) returns (ok: bool)
      requires cache.Valid() && LegalDisk(L, cache.disk) && HeaderCount(L, cache.disk) == 0
      requires LegalHeader(L, lh) && lh != []
      requires Shared(cache.bufs, BlocksFrom(lh, 0), reading) && Apart(L, lh, reading)
      modifies cache
      ensures cache.Valid() && Shared(cache.bufs, BlocksFrom(lh, 0), reading) &&
              Undisturbed(old(cache.bufs), cache.bufs)
      ensures ok <==> Room(BlocksFrom(lh, 0), reading)
      ensures !ok ==>
                cache.disk == old(cache.disk) && cache.view == old(cache.view) && cache.images == old(cache.images)
      ensures ok ==> LegalDisk(L, cache.disk) && Header(L, cache.disk) == lh
      ensures ok ==> SameHome(L, Recovered(L, cache.disk), old(cache.view))
      ensures ok ==> |cache.images| == old(|cache.images|) + |lh| + 1
      ensures ok ==> cache.images[|cache.images| - 1] == cache.disk
      ensures ok ==> ExtendedBy(L, old(cache.images), cache.images[..|cache.images| - 1], Recovered(L, old(cache.disk)))
    {
      ok := WriteLog(p, reading);
      if ok {
        UnpinnedOnDisk(cache.bufs, cache.disk, cache.view, lh);
        HeaderWriteCommits(L, cache.disk, lh, old(cache.view));
        ghost var images1 := cache.images;
        HeadApart(L, lh, reading);
        WriteHead(p, BlocksFrom(lh, 0), reading);
        assert cache.images[..|cache.images| - 1] == images1;
      }
    }

    /**
     * commit, while other processes have buffers of the blocks `reading`: the transaction is all-or-nothing.
     * A crash at any of its first |lh| writes recovers to the home blocks of before; a crash at the header
     * write or later recovers to the logged contents. `ok` is false where it panics for want of a buffer.
     */
    method Commit(p: nat, ghost reading: set<nat>) returns (ok: bool)
      requires cache.Valid() && LegalDisk(L, cache.disk) && HeaderCount(L, cache.disk) == 0
      requires LegalHeader(L, lh) && Distinct(lh)
      requires Shared(cache.bufs, BlocksFrom(lh, 0), reading) && Apart(L, lh, reading)
      modifies this`lh, cache
      ensures cache.Valid() && Undisturbed(old(cache.bufs), cache.bufs)
      ensures ok <==> old(lh) == [] || Room(BlocksFrom(old(lh), 0), reading)
      ensures !ok ==> lh == old(lh) && cache.disk == old(cache.disk) && cache.images == old(cache.images)
      ensures ok ==> Shared(cache.bufs, {}, reading) && lh == []
      ensures ok ==> LegalDisk(L, cache.disk) && HeaderCount(L, cache.disk) == 0
      ensures ok ==> SameHome(L, cache.disk, old(cache.view)) && SameHome(L, cache.view, old(cache.view))
      ensures ok ==> AtomicWrites(L, old(cache.images), cache.images, old(|lh|), Recovered(L, old(cache.disk)),
                old(cache.view))
    {
      hide Room, Shared, Links, Permutation, Unique, Coherent, FreeUnlocked, BlocksFrom, ExtendedBy, AtomicWrites;
      ok := true;
      if |lh| > 0 {
        ok := LogAndWriteHead(p, reading);
        if ok {
          ghost var images1, d1 := cache.images, cache.disk;
          InstallAndClear(p, true, reading);
          JoinTraces(L, old(cache.images), images1, cache.images, Recovered(L, old(cache.disk)), Recovered(L, d1),
            old(cache.view));
        }
      } else {
        NothingLogged(L, cache.bufs, cache.disk, cache.view, cache.images, lh, reading);
      }
    }

    /** recover_from_log: the disk becomes Recovered(disk), and a crash at any of its writes recovers to the same. */
    method RecoverFromLog(p: nat)
      requires cache.Valid() && LegalDisk(L, cache.disk) && Shared(cache.bufs, {}, {})
      modifies this`lh, cache
      ensures cache.Valid() && Shared(cache.bufs, {}, {}) && lh == []
      ensures Cleared(L, old(cache.disk), cache.disk, cache.view)
      ensures ExtendedBy(L, old(cache.images), cache.images, Recovered(L, old(cache.disk)))
    {
      ReadHead(p);
      InstallAndClear(p, false, {});
    }
  }
}
