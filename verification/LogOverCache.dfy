/**
 * The log protocol on top of the buffer cache. Every step of LogProtocol that touches a block is a
 * run of CacheProtocol, from bget to brelse, with the same disk and the same block contents; a crash
 * restarts the cache. It works as long as bget finds buffers, and that is decided by the log's size.
 */
module LogOverCache {
  import opened Blocks
  import opened Options
  import opened RedoLog
  import opened Sequences
  import opened BufferCache
  import opened Log
  import LP = LogProtocol
  import CP = CacheProtocol

  // ---- Are there buffers for a commit? ----

  /** The cache at the start of commit() in state `s`, when no process has a buffer. */
  ghost predicate QuietCommit(s: LP.State, bufs: seq<Buf>, order: seq<nat>) {
    && s.phase == LP.CopyToLog(0) && |bufs| == NBUF && Permutation(order) && Unique(bufs)
    && Coherent(bufs, s.disk, s.view) && FreeUnlocked(bufs) && Shared(bufs, BlocksFrom(s.lh, 0), {})
  }

  /** If `steps` leads to `s`, the first bread of its commit finds a buffer for the first log slot. */
  ghost predicate FindsBuffer(L: Layout, d: Disk, steps: seq<LP.Step>, s: LP.State, bufs: seq<Buf>, order: seq<nat>) {
    LP.Run(L, LP.InitState(d), steps, s) && QuietCommit(s, bufs, order) ==> Chosen(bufs, order, L.start + 1).Some?
  }

  lemma SmallLogHasRoom(L: Layout, lh: seq<nat>, from: nat)
    requires LegalHeader(L, lh) && L.nlog <= LOGSIZE && from <= |lh|
    ensures Room(BlocksFrom(lh, from), {})
  {
    BlocksFromBound(lh, from);
    assert BlocksFrom(lh, from) + {} == BlocksFrom(lh, from);
  }

  /** Three operations fill the log and end; then the commit starts. */
  lemma FullCommit(L: Layout, d: Disk) returns (steps: seq<LP.Step>, s: LP.State)
    requires LegalDisk(L, d) && L.nlog > 1 && L.start + L.nlog + LOGSIZE <= L.size
    ensures LP.Run(L, LP.InitState(d), steps, s)
    ensures s.phase == LP.CopyToLog(0) && s.disk == d && |s.lh| == L.Capacity() && LegalHeader(L, s.lh)
    ensures forall i :: 0 <= i < |s.lh| ==> s.lh[i] == L.start + L.nlog + i
    ensures |s.view| == |d| && forall b :: 0 <= b < |d| && b !in s.lh ==> s.view[b] == d[b]
  {
    var steps0, m := LP.FillLog(L, d, L.Capacity());
    var m1 := LP.End(m, 0);
    var m2 := LP.End(m1, 1);
    LP.Extend(L, LP.InitState(d), steps0, m, LP.EndOp(0));
    LP.Extend(L, LP.InitState(d), steps0 + [LP.EndOp(0)], m1, LP.EndOp(1));
    LP.Extend(L, LP.InitState(d), steps0 + [LP.EndOp(0)] + [LP.EndOp(1)], m2, LP.EndOp(2));
    steps, s := steps0 + [LP.EndOp(0)] + [LP.EndOp(1)] + [LP.EndOp(2)], LP.End(m2, 2);
  }

  /** A cache of the blocks after the log area: the first n are pinned, each of the others is held by a reader. */
  function FullCache(L: Layout, view: Disk, n: nat): (bufs: seq<Buf>)
    requires L.start + L.nlog + NBUF <= |view|
    ensures |bufs| == NBUF
    ensures forall i :: 0 <= i < NBUF ==> bufs[i] == FullBuffer(L, view, n, i)
  {
    seq(NBUF, i requires 0 <= i < NBUF => FullBuffer(L, view, n, i))
  }

  function FullBuffer(L: Layout, view: Disk, n: nat, i: nat): Buf
    requires L.start + L.nlog + i < |view|
  {
    var b := L.start + L.nlog + i;
    if i < n then Buf(true, true, ROOTDEV, b, None, 0, view[b]) else Buf(true, false, ROOTDEV, b, Some(i), 1, view[b])
  }

  predicate Behind(L: Layout, n: nat, b: nat) {
    L.start + L.nlog + n <= b < L.start + L.nlog + NBUF
  }

  /** The blocks they read. */
  function ReadBlocks(L: Layout, n: nat): set<nat> {
    set b: nat | b < L.start + L.nlog + NBUF && Behind(L, n, b)
  }

  lemma FullCacheShared(L: Layout, view: Disk, lh: seq<nat>, bufs: seq<Buf>)
    requires L.start + L.nlog + NBUF <= |view| && |lh| <= NBUF && bufs == FullCache(L, view, |lh|)
    requires forall i :: 0 <= i < |lh| ==> lh[i] == L.start + L.nlog + i
    ensures forall b :: Pinned(bufs, b) <==> b in lh
    ensures Shared(bufs, BlocksFrom(lh, 0), ReadBlocks(L, |lh|))
  {
    forall b
      ensures Pinned(bufs, b) <==> b in lh
    {
      if b in lh {
        var i :| 0 <= i < |lh| && lh[i] == b;
        assert bufs[i].dirty && bufs[i].blockno == b;
      }
      if i :| 0 <= i < |bufs| && bufs[i].dirty && bufs[i].blockno == b {
        assert bufs[i] == FullBuffer(L, view, |lh|, i) && lh[i] == b;
      }
    }
    assert PinnedExactly(bufs, BlocksFrom(lh, 0));
    forall b
      ensures b in InUse(bufs) <==> b in ReadBlocks(L, |lh|)
    {
      if b in ReadBlocks(L, |lh|) {
        var i := b - (L.start + L.nlog);
        assert bufs[i] == FullBuffer(L, view, |lh|, i) && bufs[i].refcnt > 0 && bufs[i].blockno == b;
      }
      if i :| 0 <= i < |bufs| && bufs[i].refcnt > 0 && bufs[i].blockno == b {
        assert bufs[i] == FullBuffer(L, view, |lh|, i);
      }
    }
  }

  /** The commit of `s` with the cache `bufs`, while other processes read the blocks `reading`. */
  ghost predicate Committing(L: Layout, s: LP.State, bufs: seq<Buf>, order: seq<nat>, reading: set<nat>) {
    && s.phase == LP.CopyToLog(0) && |bufs| == NBUF && Permutation(order) && Unique(bufs) && Apart(L, s.lh, reading)
    && Coherent(bufs, s.disk, s.view) && FreeUnlocked(bufs) && Shared(bufs, BlocksFrom(s.lh, 0), reading)
  }

  /**
   * A log area of any size has a run up to a commit of a full log that finds no buffer, because the remaining
   * buffers, one of NBUF for the log area mkfs makes, are held by processes that read other blocks.
   */
  lemma ReadersStarveCommit(L: Layout, d: Disk)
    returns (steps: seq<LP.Step>, s: LP.State, bufs: seq<Buf>, order: seq<nat>)
    requires LegalDisk(L, d) && L.nlog > 1 && L.start + L.nlog + LOGSIZE <= L.size
    ensures LP.Run(L, LP.InitState(d), steps, s) && |s.lh| == L.Capacity() >= 0
    ensures Committing(L, s, bufs, order, ReadBlocks(L, L.Capacity()))
    ensures Chosen(bufs, order, L.start + 1) == None
  {
    steps, s := FullCommit(L, d);
    bufs, order := FullCache(L, s.view, |s.lh|), seq(NBUF, i => NBUF - 1 - i);
    ListsAll(order);
    FullCacheShared(L, s.view, s.lh, bufs);
    FullCacheCoherent(L, s.disk, s.view, s.lh, bufs);
    hide LP.Run, Coherent, Shared, Unique, FullCache, LP.InitState, LegalDisk;
  }

  lemma FullCacheCoherent(L: Layout, disk: Disk, view: Disk, lh: seq<nat>, bufs: seq<Buf>)
    requires L.start + L.nlog + NBUF <= |view| == |disk| && L.nlog > 1 && |lh| <= NBUF
    requires bufs == FullCache(L, view, |lh|)
    requires forall b :: Pinned(bufs, b) <==> b in lh
    requires forall b :: 0 <= b < |disk| && b !in lh ==> view[b] == disk[b]
    ensures Coherent(bufs, disk, view) && Unique(bufs) && FreeUnlocked(bufs)
    ensures forall i :: 0 <= i < NBUF ==> !bufs[i].Holds(L.start + 1) && !bufs[i].Recyclable()
  {
    assert forall i :: 0 <= i < NBUF ==> BufferCoherent(bufs[i], view);
  }

  /** For a log area of more than LOGSIZE blocks there is no such process. */
  lemma FullCacheFindsNone(L: Layout, d: Disk)
    returns (steps: seq<LP.Step>, s: LP.State, bufs: seq<Buf>, order: seq<nat>)
    requires LegalDisk(L, d) && L.nlog > LOGSIZE && L.start + L.nlog + LOGSIZE <= L.size
    ensures !FindsBuffer(L, d, steps, s, bufs, order)
  {
    steps, s, bufs, order := ReadersStarveCommit(L, d);
    assert ReadBlocks(L, L.Capacity()) == {};
  }

  /**
   * Whether a commit can panic for want of buffers when it has the cache to itself: it cannot exactly
   * when the log area, header included, has no more than LOGSIZE blocks, as mkfs makes it.
   */
  lemma CommitFindsBuffers(L: Layout, d: Disk)
    requires LegalDisk(L, d) && HeaderCount(L, d) == 0 && L.start + L.nlog + LOGSIZE <= L.size
    ensures L.nlog <= LOGSIZE <==> forall steps, s, bufs, order :: FindsBuffer(L, d, steps, s, bufs, order)
  {
    if L.nlog <= LOGSIZE {
      forall steps, s, bufs, order
        ensures FindsBuffer(L, d, steps, s, bufs, order)
      {
        if LP.Run(L, LP.InitState(d), steps, s) && QuietCommit(s, bufs, order) {
          LP.InitEstablishesInv(L, LP.InitState(d));
          LP.RunKeepsInv(L, LP.InitState(d), steps, s);
          SmallLogHasRoom(L, s.lh, 0);
          ChosenUnused(bufs, order, s.disk, s.view, L.start + 1, BlocksFrom(s.lh, 0), {});
        }
      }
    } else {
      var steps, s, bufs, order := FullCacheFindsNone(L, d);
      assert !FindsBuffer(L, d, steps, s, bufs, order);
    }
  }

  // ---- One block, from bget to brelse ----

  /** Nobody uses buffer `i`. */
  ghost predicate Free(c: CP.State, i: nat) {
    i < NBUF && CP.Inv(c) && c.users[i] == map[]
  }

  lemma FreeFacts(c: CP.State, i: nat)
    requires Free(c, i)
    ensures c.bufs[i].refcnt == 0 && c.bufs[i].holder == None && i !in c.draft
  {
    assert CP.UseAgrees(c.bufs[i], c.users[i]);
    forall p: nat
      ensures c.bufs[i].holder != Some(p)
    {
      assert p !in c.users[i];
    }
  }

  /** `step` leads from `c` to `c'`. */
  ghost predicate Leads(c: CP.State, step: CP.Step, c': CP.State) {
    CP.Inv(c) && CP.Enabled(c, step) && c' == CP.Next(c, step) && CP.Inv(c')
  }

  lemma Then(c0: CP.State, steps: seq<CP.Step>, c: CP.State, step: CP.Step, c': CP.State)
    requires CP.Run(c0, steps, c) && Leads(c, step, c')
    ensures CP.Run(c0, steps + [step], c')
  {
    CP.Extend(c0, steps, c, step);
  }

  /** `c'` is `c` but for buffer `i`, which is now `buf`, used by `users`. */
  ghost predicate Differs(c: CP.State, c': CP.State, i: nat, buf: Buf, users: map<nat, CP.Use>) {
    && i < |c.bufs| && i < |c.users|
    && c' == c.(bufs := c.bufs[i := buf], users := c.users[i := users])
  }

  lemma GetFree(c: CP.State, p: nat, b: nat, i: nat) returns (c': CP.State)
    requires b < |c.disk| && i < NBUF && Free(c, i) && Chosen(c.bufs, c.order, b) == Some(i)
    ensures Leads(c, CP.Get(p, b), c') && Differs(c, c', i, Claimed(c.bufs[i], b), map[p := CP.Waiting])
  {
    FreeFacts(c, i);
    CP.StepKeepsInv(c, CP.Get(p, b));
    c' := CP.Next(c, CP.Get(p, b));
    assert c.users[i][p := CP.Waiting] == map[p := CP.Waiting];
  }

  lemma LockFree(c: CP.State, p: nat, i: nat) returns (c': CP.State)
    requires CP.Inv(c) && i < NBUF && c.users[i] == map[p := CP.Waiting] && c.bufs[i].holder == None
    ensures Leads(c, CP.Acquire(p, i), c') && Differs(c, c', i, c.bufs[i].(holder := Some(p)), map[p := CP.Holding])
  {
    hide Unique, Coherent, Permutation, CP.UsersInv;
    CP.StepKeepsInv(c, CP.Acquire(p, i));
    c' := CP.Next(c, CP.Acquire(p, i));
    assert c.users[i][p := CP.Holding] == map[p := CP.Holding];
  }

  lemma FillHeld(c: CP.State, p: nat, i: nat) returns (c': CP.State)
    requires CP.Inv(c) && i < NBUF && c.users[i] == map[p := CP.Holding] && !c.bufs[i].valid &&
             c.bufs[i].blockno < |c.disk|
    ensures Leads(c, CP.Fill(p, i), c')
    ensures Differs(c, c', i, c.bufs[i].(data := c.disk[c.bufs[i].blockno], valid := true), map[p := CP.Holding])
  {
    hide Unique, Coherent, Permutation, CP.UsersInv;
    CP.StepKeepsInv(c, CP.Fill(p, i));
    c' := CP.Next(c, CP.Fill(p, i));
    assert c.users[i := map[p := CP.Holding]] == c.users;
  }

  lemma DiffersTwice(c: CP.State, m: CP.State, c': CP.State, i: nat, buf1: Buf, buf2: Buf,
                     users1: map<nat, CP.Use>, users2: map<nat, CP.Use>)
    requires Differs(c, m, i, buf1, users1) && Differs(m, c', i, buf2, users2)
    ensures m.bufs[i] == buf1 && m.users[i] == users1 && Differs(c, c', i, buf2, users2)
  {
    assert c.bufs[i := buf1][i := buf2] == c.bufs[i := buf2];
    assert c.users[i := users1][i := users2] == c.users[i := users2];
  }

  /** Buffer `i` of `c` after bread of block `b` by `p`. */
  ghost predicate Read1(c: CP.State, c': CP.State, p: nat, i: nat, b: nat) {
    && i < |c'.bufs| && i < |c.bufs| && Differs(c, c', i, c'.bufs[i], map[p := CP.Holding])
    && c'.bufs[i].Holds(b) && c'.bufs[i].valid && c'.bufs[i].holder == Some(p) && c'.bufs[i].refcnt == 1
    && c'.bufs[i].dirty == c.bufs[i].dirty && (c.bufs[i].dirty ==> c.bufs[i].blockno == b)
  }

  /** bread of a block whose buffer nobody uses. */
  lemma Take(c: CP.State, p: nat, b: nat, i: nat) returns (steps: seq<CP.Step>, c': CP.State)
    requires b < |c.disk| && i < NBUF && Free(c, i) && Chosen(c.bufs, c.order, b) == Some(i)
    ensures CP.Run(c, steps, c') && CP.Inv(c') && Read1(c, c', p, i, b)
  {
    FreeFacts(c, i);
    assert CP.Run(c, [], c);
    hide CP.Run, CP.Inv, CP.Next, CP.Enabled;
    var got := GetFree(c, p, b, i);
    Then(c, [], c, CP.Get(p, b), got);
    var locked := LockFree(got, p, i);
    Then(c, [] + [CP.Get(p, b)], got, CP.Acquire(p, i), locked);
    DiffersTwice(c, got, locked, i, got.bufs[i], locked.bufs[i], got.users[i], locked.users[i]);
    steps, c' := [] + [CP.Get(p, b)] + [CP.Acquire(p, i)], locked;
    if !locked.bufs[i].valid {
      c' := FillHeld(locked, p, i);
      Then(c, steps, locked, CP.Fill(p, i), c');
      DiffersTwice(c, locked, c', i, locked.bufs[i], c'.bufs[i], locked.users[i], c'.users[i]);
      steps := steps + [CP.Fill(p, i)];
    }
  }

  /** The caller changes the data of a locked buffer and calls log_write or bwrite. */
  lemma Flush(c: CP.State, p: nat, i: nat, x: Block, log: bool) returns (steps: seq<CP.Step>, c': CP.State)
    requires CP.Inv(c) && i < NBUF && c.users[i] == map[p := CP.Holding] && i !in c.draft
    requires c.bufs[i].valid && c.bufs[i].blockno < |c.disk|
    ensures CP.Run(c, steps, c') && CP.Inv(c')
    ensures var b := c.bufs[i].blockno;
            c' == c.(bufs := c.bufs[i := c.bufs[i].(data := x, dirty := log)], view := c.view[b := x],
                     disk := if log then c.disk else c.disk[b := x], events := c.events + [(b, x)])
  {
    hide Unique, Coherent, Permutation, CP.UsersInv;
    assert CP.Run(c, [], c);
    CP.StepKeepsInv(c, CP.Store(p, i, x));
    var m, step := CP.Next(c, CP.Store(p, i, x)), if log then CP.LogWrite(p, i) else CP.Write(p, i);
    Then(c, [], c, CP.Store(p, i, x), m);
    CP.StepKeepsInv(m, step);
    c' := CP.Next(m, step);
    Then(c, [] + [CP.Store(p, i, x)], m, step, c');
    steps := [] + [CP.Store(p, i, x)] + [step];
    assert c.draft[i := x] - {i} == c.draft;
  }

  /** brelse by the only user. */
  lemma Give(c: CP.State, p: nat, i: nat) returns (steps: seq<CP.Step>, c': CP.State)
    requires CP.Inv(c) && i < NBUF && c.users[i] == map[p := CP.Holding] && i !in c.draft && c.bufs[i].refcnt == 1
    ensures CP.Run(c, steps, c') && CP.Inv(c')
    ensures c' == c.(bufs := c.bufs[i := c.bufs[i].(holder := None, refcnt := 0)], users := c.users[i := map[]],
                     order := c'.order)
  {
    hide Unique, Coherent, CP.UsersInv;
    assert CP.Run(c, [], c);
    CP.StepKeepsInv(c, CP.Release(p, i));
    var m := CP.Next(c, CP.Release(p, i));
    assert c.users[i][p := CP.Leaving] == map[p := CP.Leaving];
    Then(c, [], c, CP.Release(p, i), m);
    CP.StepKeepsInv(m, CP.Drop(p, i));
    c' := CP.Next(m, CP.Drop(p, i));
    Then(c, [] + [CP.Release(p, i)], m, CP.Drop(p, i), c');
    steps := [] + [CP.Release(p, i)] + [CP.Drop(p, i)];
    assert m.users[i] - {p} == map[];
  }

  lemma {:induction false} RunOn(c0: CP.State, steps: seq<CP.Step>, c1: CP.State, more: seq<CP.Step>, c2: CP.State)
    requires CP.Run(c0, steps, c1) && CP.Run(c1, more, c2)
    ensures CP.Run(c0, steps + more, c2)
    decreases |steps|
  {
    hide CP.Next, CP.Enabled;
    if steps == [] {
      assert steps + more == more;
    } else {
      assert (steps + more)[1..] == steps[1..] + more;
      RunOn(CP.Next(c0, steps[0]), steps[1..], c1, more, c2);
    }
  }

  /** One buffer was used for block `b`, and its pin is now as `log` says. */
  lemma PinnedAfter(bufs: seq<Buf>, i: nat, buf: Buf, b: nat, log: bool, pinned: set<nat>, disk: Disk, view: Disk)
    requires PinnedExactly(bufs, pinned) && i < |bufs| && Unique(bufs[i := buf]) && Coherent(bufs, disk, view)
    requires buf.Holds(b) && buf.dirty == log && (bufs[i].dirty ==> bufs[i].blockno == b)
    ensures PinnedExactly(bufs[i := buf], if log then pinned + {b} else pinned - {b})
  {
    var bufs' := bufs[i := buf];
    assert bufs'[i].dev == ROOTDEV && bufs'[i].blockno == b;
    forall k
      ensures Pinned(bufs', k) <==> if k == b then log else Pinned(bufs, k)
    {
      if j :| 0 <= j < |bufs| && bufs[j].dirty && bufs[j].blockno == k && j != i {
        assert bufs'[j].dirty && bufs'[j].blockno == k && BufferCoherent(bufs[j], view);
      }
      if j :| 0 <= j < |bufs'| && bufs'[j].dirty && bufs'[j].blockno == k && j != i {
        assert bufs[j].dirty && bufs[j].blockno == k && BufferCoherent(bufs[j], view);
      }
      assert log ==> bufs'[i].dirty && bufs'[i].blockno == b;
    }
    assert forall k :: Pinned(bufs, k) <==> k in pinned;
  }

  /** No process has a buffer, and the blocks in `pinned` are the dirty ones. */
  ghost predicate Idle(c: CP.State, pinned: set<nat>) {
    CP.Inv(c) && (forall i :: 0 <= i < NBUF ==> c.users[i] == map[]) && PinnedExactly(c.bufs, pinned)
  }

  lemma IdleIsFree(c: CP.State, pinned: set<nat>, b: nat) returns (i: nat)
    requires Idle(c, pinned) && Room(pinned, {}) && b < |c.disk|
    ensures Free(c, i) && Chosen(c.bufs, c.order, b) == Some(i)
  {
    forall i | 0 <= i < NBUF
      ensures c.bufs[i].refcnt == 0 && c.bufs[i].holder == None
    {
      FreeFacts(c, i);
    }
    assert InUse(c.bufs) == {};
    ChosenUnused(c.bufs, c.order, c.disk, c.view, b, pinned, {});
    i := Chosen(c.bufs, c.order, b).value;
  }

  /** What a caller of bread leaves behind after log_write or bwrite and brelse. */
  lemma AfterWrite(c: CP.State, c1: CP.State, c': CP.State, pinned: set<nat>, p: nat, i: nat, b: nat, x: Block,
                   log: bool)
    requires Idle(c, pinned) && CP.Inv(c') && i < NBUF && Read1(c, c1, p, i, b) && b < |c.disk| && b < |c.view|
    requires c' == c1.(bufs := c1.bufs[i := c1.bufs[i].(data := x, dirty := log, holder := None, refcnt := 0)],
                       users := c1.users[i := map[]], view := c1.view[b := x],
                       disk := if log then c1.disk else c1.disk[b := x], events := c'.events, order := c'.order)
    ensures Idle(c', if log then pinned + {b} else pinned - {b})
    ensures c'.disk == (if log then c.disk else c.disk[b := x]) && c'.view == c.view[b := x]
  {
    assert c'.bufs == c.bufs[i := c'.bufs[i]];
    PinnedAfter(c.bufs, i, c'.bufs[i], b, log, pinned, c.disk, c.view);
    hide Unique, Coherent, Permutation, CP.UsersInv;
  }

  /** bread, new contents, log_write or bwrite, brelse, on an idle cache with a buffer to spare. */
  lemma WriteBlock(c: CP.State, pinned: set<nat>, b: nat, x: Block, log: bool)
    returns (steps: seq<CP.Step>, c': CP.State)
    requires Idle(c, pinned) && Room(pinned, {}) && b < |c.disk| && b < |c.view|
    ensures CP.Run(c, steps, c') && Idle(c', if log then pinned + {b} else pinned - {b})
    ensures c'.disk == (if log then c.disk else c.disk[b := x]) && c'.view == c.view[b := x]
  {
    hide CP.Run, Chosen, Permutation, Unique, Coherent, CP.UsersInv, PinnedExactly, Room;
    var i := IdleIsFree(c, pinned, b);
    FreeFacts(c, i);
    var steps1, c1 := Take(c, 0, b, i);
    var steps2, c2 := Flush(c1, 0, i, x, log);
    var steps3, c3 := Give(c2, 0, i);
    RunOn(c, steps1, c1, steps2, c2);
    RunOn(c, steps1 + steps2, c2, steps3, c3);
    steps, c' := steps1 + steps2 + steps3, c3;
    AfterWrite(c, c1, c', pinned, 0, i, b, x, log);
  }

  // ---- The log protocol, step by step ----

  /** The blocks with contents in the cache that are not home yet. */
  ghost function StillLogged(s: LP.State): set<nat> {
    match s.phase
    case Running => BlocksFrom(s.lh, 0)
    case CopyToLog(_) => BlocksFrom(s.lh, 0)
    case Installing(tail) => BlocksFrom(s.lh, tail)
    case Committed => {}
    case Booted => {}
    case Replaying(_) => {}
  }

  /** The cache is idle, has the disk and the block contents of `s`, and pins what `s` has not installed. */
  ghost predicate Coupled(s: LP.State, c: CP.State) {
    Idle(c, StillLogged(s)) && c.disk == s.disk && c.view == s.view
  }

  /** The cache after a crash: only the disk is left. */
  ghost function Restart(c: CP.State): CP.State {
    CP.State(seq(NBUF, _ => Buf(false, false, 0, 0, None, 0, ZeroBlock())), seq(NBUF, i => NBUF - 1 - i), c.disk,
             seq(NBUF, _ => map[]), map[], c.disk, [])
  }

  lemma RestartIsInit(c: CP.State)
    ensures CP.Init(Restart(c)) && Idle(Restart(c), {})
  {
    ListsAll(Restart(c).order);
    CP.InitEstablishesInv(Restart(c));
  }

  /** The block the next Advance writes, and what it writes there. */
  function AdvanceBlock(L: Layout, s: LP.State): nat
    requires LP.Shape(L, s) && LP.Enabled(L, s, LP.Advance)
  {
    if s.phase.tail == |s.lh| then L.start
    else if s.phase.CopyToLog? then L.start + 1 + s.phase.tail
    else s.lh[s.phase.tail]
  }

  function AdvanceData(L: Layout, s: LP.State): Block
    requires LP.Shape(L, s) && LP.Enabled(L, s, LP.Advance)
  {
    if s.phase.tail == |s.lh| then EncodeHeader(s.disk[L.start], if s.phase.CopyToLog? then s.lh else [])
    else if s.phase.CopyToLog? then s.view[s.lh[s.phase.tail]]
    else Slot(L, s.disk, s.phase.tail)
  }

  /** Every Advance of the log protocol is one block write, which unpins that block. */
  lemma AdvanceWrites(L: Layout, s: LP.State)
    requires LP.Shape(L, s) && Distinct(s.lh) && LP.Enabled(L, s, LP.Advance)
    ensures var b, x := AdvanceBlock(L, s), AdvanceData(L, s);
            && b < |s.disk| == |s.view|
            && LP.DiskWrite(L, s).disk == s.disk[b := x] && LP.DiskWrite(L, s).view == s.view[b := x]
            && StillLogged(LP.DiskWrite(L, s)) == StillLogged(s) - {b}
  {
    var tail := s.phase.tail;
    if tail == |s.lh| {
      assert L.InLog(L.start);
    } else if s.phase.CopyToLog? {
      SlotNotHome(L, s.lh, tail);
    } else {
      DropFirst(s.lh, tail);
    }
  }

  lemma LoggedHasRoom(L: Layout, s: LP.State)
    requires LP.Shape(L, s) && L.nlog <= LOGSIZE
    ensures Room(StillLogged(s), {})
  {
    SmallLogHasRoom(L, s.lh, if s.phase.Installing? then s.phase.tail else 0);
    var none: set<nat> := {};
    assert none + none == none;
  }

  lemma LogWriteAdds(L: Layout, s: LP.State, op: LP.Op, b: nat, x: Block)
    requires LP.Inv(L, s) && LP.Enabled(L, s, LP.LogWrite(op, b, x))
    ensures b < |s.disk| == |s.view|
    ensures var s' := LP.Next(L, s, LP.LogWrite(op, b, x));
            s'.disk == s.disk && s'.view == s.view[b := x] && StillLogged(s') == StillLogged(s) + {b}
  {
    var lh' := LP.Log(s, op, b, x).lh;
    assert forall i :: 0 <= i < |s.lh| ==> lh'[i] == s.lh[i];
    assert b in lh';
    assert BlocksFrom(lh', 0) == BlocksFrom(s.lh, 0) + {b};
  }

  lemma OthersTouchNothing(L: Layout, s: LP.State, step: LP.Step)
    requires LP.Inv(L, s) && LP.Enabled(L, s, step) && (step.BeginOp? || step.EndOp? || step.Finish? || step.ReadHead?)
    ensures var s' := LP.Next(L, s, step);
            s'.disk == s.disk && s'.view == s.view && StillLogged(s') == StillLogged(s)
  {
  }

  /** One step of the log protocol as steps of the cache. */
  lemma StepOnCache(L: Layout, s: LP.State, step: LP.Step, c: CP.State) returns (steps: seq<CP.Step>, c': CP.State)
    requires LP.Inv(L, s) && LP.Enabled(L, s, step) && L.nlog <= LOGSIZE && Coupled(s, c) && step != LP.Crash
    ensures CP.Run(c, steps, c') && Coupled(LP.Next(L, s, step), c')
  {
    LoggedHasRoom(L, s);
    assert CP.Run(c, [], c);
    hide CP.Run, Idle, Room, StillLogged, LP.HistoryInv, LP.DiskInv;
    steps, c' := [], c;
    if step.LogWrite? {
      LogWriteAdds(L, s, step.op, step.block, step.data);
      steps, c' := WriteBlock(c, StillLogged(s), step.block, step.data, true);
    } else if step.Advance? {
      AdvanceWrites(L, s);
      steps, c' := WriteBlock(c, StillLogged(s), AdvanceBlock(L, s), AdvanceData(L, s), false);
    } else {
      OthersTouchNothing(L, s, step);
    }
  }

  /** A run of the cache with crashes: None is one. */
  ghost predicate CrashRun(c0: CP.State, steps: seq<Option<CP.Step>>, c: CP.State)
    decreases |steps|
  {
    if steps == [] then c == c0
    else if steps[0].None? then CrashRun(Restart(c0), steps[1..], c)
    else CP.Shape(c0) && CP.Enabled(c0, steps[0].value) && CrashRun(CP.Next(c0, steps[0].value), steps[1..], c)
  }

  lemma {:induction false} RunThenCrashRun(c0: CP.State, steps: seq<CP.Step>, c1: CP.State, more: seq<Option<CP.Step>>,
                                           c2: CP.State)
    returns (all: seq<Option<CP.Step>>)
    requires CP.Run(c0, steps, c1) && CrashRun(c1, more, c2)
    ensures CrashRun(c0, all, c2)
    decreases |steps|
  {
    hide CP.Next, CP.Enabled;
    if steps == [] {
      all := more;
    } else {
      var rest := RunThenCrashRun(CP.Next(c0, steps[0]), steps[1..], c1, more, c2);
      all := [Some(steps[0])] + rest;
      assert all[1..] == rest;
    }
  }

  /**
   * Every run of the log protocol, crashes included, is a run of the buffer cache: at its end
   * the two have the same disk and the same block contents, no process has
   * a buffer, and the pinned blocks are those logged and not yet installed.
   */
  lemma {:induction false} RunOnCache(L: Layout, s0: LP.State, steps: seq<LP.Step>, s: LP.State, c0: CP.State)
    returns (csteps: seq<Option<CP.Step>>, c: CP.State)
    requires LP.Inv(L, s0) && LP.Run(L, s0, steps, s) && L.nlog <= LOGSIZE && Coupled(s0, c0)
    ensures CrashRun(c0, csteps, c) && Coupled(s, c)
    decreases |steps|
  {
    if steps == [] {
      csteps, c := [], c0;
    } else {
      LP.StepKeepsInv(L, s0, steps[0]);
      if steps[0] == LP.Crash {
        RestartIsInit(c0);
        var more;
        more, c := RunOnCache(L, LP.Next(L, s0, steps[0]), steps[1..], s, Restart(c0));
        csteps := [None] + more;
        assert csteps[1..] == more;
      } else {
        var first, m := StepOnCache(L, s0, steps[0], c0);
        var more;
        more, c := RunOnCache(L, LP.Next(L, s0, steps[0]), steps[1..], s, m);
        csteps := RunThenCrashRun(c0, first, m, more, c);
      }
    }
  }

  /** From boot: a fresh cache over the disk the log starts from. */
  lemma LogRunsOnCache(L: Layout, s0: LP.State, steps: seq<LP.Step>, s: LP.State, c0: CP.State)
    returns (csteps: seq<Option<CP.Step>>, c: CP.State)
    requires LP.Init(L, s0) && LP.Run(L, s0, steps, s) && L.nlog <= LOGSIZE && CP.Init(c0) && c0.disk == s0.disk
    ensures CrashRun(c0, csteps, c) && c.disk == s.disk && c.view == s.view && Idle(c, StillLogged(s))
  {
    LP.InitEstablishesInv(L, s0);
    CP.InitEstablishesInv(c0);
    assert StillLogged(s0) == {};
    csteps, c := RunOnCache(L, s0, steps, s, c0);
  }
}
