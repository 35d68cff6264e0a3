/**
 * pipe.c as a machine of interleaved steps, for any number of processes. The pipe's spin lock and the
 * process-table lock are acquired and released in separate steps, and so are the parts of sleep and
 * wakeup of proc.c; what a process does to the pipe while it holds its lock goes one byte at a time.
 * `accepted` and `delivered` record the bytes stored and handed out so far.
 */
module PipeProtocol {
  import opened Options
  import opened Blocks
  import opened SleepWakeup

  const PIPESIZE := 512
  const UINT := 0x1_0000_0000

  datatype Chan = Rd | Wr                      // &p->nread and &p->nwrite

  /** What a process does next with the pipe's lock held. */
  datatype Task =
    | Write(buf: seq<byte>, i: nat)            // the test of pipewrite's loops
    | WriteSleep(buf: seq<byte>, i: nat)
    | ReadTest(n: nat)                         // the while of piperead
    | ReadCopy(n: nat, got: seq<byte>)
    | Close(writable: bool)
    | Release(r: nat)                          // what the call returns, if not -1

  type Proc = PC<Chan, Task>

  /** The ring buffer, and all bytes stored and fetched so far. */
  datatype Buffer = Buffer(data: seq<byte>, nread: word, nwrite: word, accepted: seq<byte>, delivered: seq<byte>)

  datatype Pipe = Pipe(
    lk: Option<nat>, pt: Option<nat>, io: Buffer,
    readopen: bool, writeopen: bool,
    rfd: bool, wfd: bool,                      // some descriptor still refers to that end
    procs: seq<Proc>, killed: seq<bool>)

  datatype Event = Start(p: nat, k: Task) | Run(p: nat) | Kill(p: nat)

  predicate Full(b: Buffer) {
    b.nwrite == (b.nread + PIPESIZE) % UINT
  }

  predicate Empty(b: Buffer) {
    b.nread == b.nwrite
  }

  function Store(b: Buffer, c: byte): Buffer
    requires |b.data| == PIPESIZE
  {
    Buffer(b.data[b.nwrite % PIPESIZE := c], b.nread, (b.nwrite + 1) % UINT, b.accepted + [c], b.delivered)
  }

  function Fetch(b: Buffer): Buffer
    requires |b.data| == PIPESIZE
  {
    Buffer(b.data, (b.nread + 1) % UINT, b.nwrite, b.accepted, b.delivered + [b.data[b.nread % PIPESIZE]])
  }

  function Goto(s: Pipe, p: nat, pc: Proc): Pipe
    requires p < |s.procs|
  {
    Hop(s, p, pc, s.lk, s.pt)
  }

  /** What a piece of code does with the lock held: where it goes on and what it leaves in the pipe. */
  datatype Effect = Effect(pc: Proc, io: Buffer, readopen: bool, writeopen: bool)

  /**
   * One piece of pipewrite, piperead or pipeclose. It releases the lock and returns when it goes to
   * Idle: -1 from the loops, otherwise the number in Release.
   */
  function Body(io: Buffer, readopen: bool, writeopen: bool, killed: bool, k: Task): (r: Effect)
    requires |io.data| == PIPESIZE
    ensures |r.io.data| == PIPESIZE
  {
    match k
    case Write(buf, i) =>
      if i >= |buf| then Effect(Wake0(Rd, Release(|buf|)), io, readopen, writeopen)
      else if !Full(io) then Effect(At(Write(buf, i + 1)), Store(io, buf[i]), readopen, writeopen)
      else if !readopen || killed then Effect(Idle, io, readopen, writeopen)
      else Effect(Wake0(Rd, WriteSleep(buf, i)), io, readopen, writeopen)
    case WriteSleep(buf, i) => Effect(Sleep0(Wr, Write(buf, i)), io, readopen, writeopen)
    case ReadTest(n) =>
      if !(Empty(io) && writeopen) then Effect(At(ReadCopy(n, [])), io, readopen, writeopen)
      else if killed then Effect(Idle, io, readopen, writeopen)
      else Effect(Sleep0(Rd, ReadTest(n)), io, readopen, writeopen)
    case ReadCopy(n, got) =>
      if |got| >= n || Empty(io) then Effect(Wake0(Wr, Release(|got|)), io, readopen, writeopen)
      else Effect(At(ReadCopy(n, got + [io.data[io.nread % PIPESIZE]])), Fetch(io), readopen, writeopen)
    case Close(writable) =>
      if writable then Effect(Wake0(Rd, Release(0)), io, readopen, false)
      else Effect(Wake0(Wr, Release(0)), io, false, writeopen)
    case Release(_) => Effect(Idle, io, readopen, writeopen)
  }

  function Do(s: Pipe, p: nat, k: Task): (r: Pipe)
    requires p < |s.procs| && |s.killed| == |s.procs| && |s.io.data| == PIPESIZE
    ensures |r.procs| == |s.procs|
  {
    var f := Body(s.io, s.readopen, s.writeopen, s.killed[p], k);
    Pipe(if f.pc == Idle then None
      else s.lk, s.pt, f.io, f.readopen, f.writeopen, s.rfd, s.wfd, s.procs[p := f.pc], s.killed)
  }

  /** p goes on at pc with the locks as given. */
  function Hop(s: Pipe, p: nat, pc: Proc, lk: Option<nat>, pt: Option<nat>): Pipe
    requires p < |s.procs|
  {
    Pipe(lk, pt, s.io, s.readopen, s.writeopen, s.rfd, s.wfd, s.procs[p := pc], s.killed)
  }

  function Sync(s: Pipe, p: nat): Pipe
    requires p < |s.procs|
  {
    var pc := s.procs[p];
    Hop(s, p, Successor(pc), LockAfter(s.lk, p, TakesLk(pc), DropsLk(pc)), LockAfter(s.pt, p, TakesPt(pc), DropsPt(pc)))
  }

  /** The next step of process p; None when it has to wait. */
  function Next(s: Pipe, p: nat): (r: Option<Pipe>)
    requires p < |s.procs| && |s.killed| == |s.procs| && |s.io.data| == PIPESIZE
  {
    var pc := s.procs[p];
    if Blocked(pc, s.lk, s.pt) then None
    else if pc.At? then Some(Do(s, p, pc.k))
    else if pc.Wake1? && pc.j < |s.procs| then Some(Goto(Rouse(s, pc.ch, pc.j), p, Wake1(pc.ch, pc.j + 1, pc.k)))
    else Some(Sync(s, p))
  }

  /** wakeup1 at one table entry. */
  function Rouse(s: Pipe, ch: Chan, j: nat): (r: Pipe)
    requires j < |s.procs|
    ensures |r.procs| == |s.procs|
  {
    Goto(s, j, Roused(s.procs[j], ch))
  }

  predicate InRead(pc: Proc) {
    !pc.Idle? && (pc.k.ReadTest? || pc.k.ReadCopy?)
  }

  predicate InWrite(pc: Proc) {
    !pc.Idle? && (pc.k.Write? || pc.k.WriteSleep?)
  }

  ghost predicate NoReader(s: Pipe) {
    forall p :: 0 <= p < |s.procs| ==> !InRead(s.procs[p])
  }

  ghost predicate NoWriter(s: Pipe) {
    forall p :: 0 <= p < |s.procs| ==> !InWrite(s.procs[p])
  }

  /** A system call on the pipe needs a descriptor; an end is closed when its last descriptor goes. */
  ghost predicate MayStart(s: Pipe, k: Task) {
    match k
    case Write(buf, i) => s.wfd && i == 0
    case ReadTest(n) => s.rfd
    case Close(writable) => if writable then s.wfd && NoWriter(s) else s.rfd && NoReader(s)
    case _ => false
  }

  ghost predicate Step(s: Pipe, e: Event, s': Pipe) {
    && e.p < |s.procs| == |s.killed| && |s.io.data| == PIPESIZE
    && match e
       case Start(p, k) =>
         && s.procs[p] == Idle && MayStart(s, k)
         && s' == Goto(s, p, Lock(k)).(rfd := s.rfd && k != Close(false), wfd := s.wfd && k != Close(true))
       case Run(p) => Next(s, p) == Some(s')
       case Kill(p) =>
         && s.pt == None
         && s' == Goto(s, p, Killed(s.procs[p])).(killed := s.killed[p := true])
  }

  // ---- What every step keeps ----

  /** Each channel is slept on by the processes whose condition it stands for. */
  predicate TaskFits(pc: Proc) {
    match pc
    case Lock(k) => !k.Release? && !k.WriteSleep? && !k.ReadCopy?
    case Wake0(ch, k) => k.Release? || (ch == Rd && k.WriteSleep?)
    case Wake1(ch, j, k) => k.Release? || (ch == Rd && k.WriteSleep?)
    case Wake2(k) => k.Release? || k.WriteSleep?
    case Sleep0(ch, k) => if ch == Rd then k.ReadTest? else k.Write?
    case Sleep1(ch, k) => if ch == Rd then k.ReadTest? else k.Write?
    case Sleep2(ch, k) => if ch == Rd then k.ReadTest? else k.Write?
    case Sleep3(ch, k) => if ch == Rd then k.ReadTest? else k.Write?
    case Asleep(ch, k) => if ch == Rd then k.ReadTest? else k.Write?
    case Woken(k) => k.ReadTest? || k.Write?
    case Resume(k) => k.ReadTest? || k.Write?
    case _ => true
  }

  predicate Closing(pc: Proc, writable: bool) {
    !pc.Idle? && pc.k == Close(writable)
  }

  ghost predicate Ends(s: Pipe) {
    && (forall p: nat {:trigger s.procs[p]} :: p < |s.procs| ==> TaskFits(s.procs[p]))
    && (forall p: nat {:trigger s.procs[p]} :: p < |s.procs| ==>
          (Closing(s.procs[p], true) ==> !s.wfd) && (Closing(s.procs[p], false) ==> !s.rfd))
    && (!s.rfd ==> NoReader(s)) && (!s.wfd ==> NoWriter(s)) && (s.rfd ==> s.readopen) && (s.wfd ==> s.writeopen)
  }

  /** The counters are the numbers of bytes stored and fetched modulo 2^32; the buffer holds those in between. */
  ghost predicate Ring(b: Buffer) {
    && |b.data| == PIPESIZE
    && b.nread == |b.delivered| % UINT && b.nwrite == |b.accepted| % UINT
    && |b.delivered| <= |b.accepted| <= |b.delivered| + PIPESIZE
    && b.delivered == b.accepted[..|b.delivered|]
    && Buffered(b.data, b.accepted, |b.delivered|)
  }

  ghost predicate Buffered(data: seq<byte>, accepted: seq<byte>, from: nat)
    requires |data| == PIPESIZE
  {
    forall k: nat {:trigger accepted[k]} :: from <= k < |accepted| ==> data[k % PIPESIZE] == accepted[k]
  }

  ghost predicate Safe(s: Pipe) {
    |s.killed| == |s.procs| && |s.io.data| == PIPESIZE && Ring(s.io) && Locks(s.procs, s.lk, s.pt) && Ends(s)
  }

  // ---- The ring buffer ----

  lemma Occupancy(b: Buffer)
    requires Ring(b)
    ensures (b.nwrite - b.nread) % UINT == |b.accepted| - |b.delivered|
    ensures Full(b) <==> |b.accepted| == |b.delivered| + PIPESIZE
    ensures Empty(b) <==> |b.accepted| == |b.delivered|
  {
    hide Buffered;
    var a, d := |b.accepted|, |b.delivered|;
    ModDifference(a, d);
    ModDifference(a, d + PIPESIZE);
    NextCount(d, PIPESIZE);
  }

  lemma ModDifference(a: nat, b: nat)
    requires -PIPESIZE <= a - b <= PIPESIZE
    ensures a % UINT == b % UINT <==> a == b
    ensures (a % UINT - b % UINT) % UINT == (a - b) % UINT
  {
    var qa, qb := a / UINT, b / UINT;
    assert a == qa * UINT + a % UINT && b == qb * UINT + b % UINT;
    assert (a % UINT - b % UINT) == (a - b) + (qb - qa) * UINT;
    AddMultiple(a - b, qb - qa);
  }

  lemma AddMultiple(x: int, q: int)
    ensures (x + q * UINT) % UINT == x % UINT
  {
    assert (x + q * UINT) == UINT * (x / UINT + q) + x % UINT;
  }

  lemma Remainder(x: nat, q: nat, r: nat)
    requires x == PIPESIZE * q + r && r < PIPESIZE
    ensures x % PIPESIZE == r
  {
  }

  /** The slot of byte number k does not depend on the counter having wrapped. */
  lemma SlotOf(k: nat)
    ensures k % UINT % PIPESIZE == k % PIPESIZE
  {
    var q, m := k / UINT, k % UINT;
    Remainder(k, 8388608 * q + m / PIPESIZE, m % PIPESIZE);
  }

  lemma NextCount(k: nat, d: nat)
    ensures (k % UINT + d) % UINT == (k + d) % UINT
  {
    var q := k / UINT;
    assert k == UINT * q + k % UINT;
    AddMultiple(k % UINT + d, q);
  }

  lemma OtherSlot(k: nat, m: nat)
    requires k < m < k + PIPESIZE
    ensures k % PIPESIZE != m % PIPESIZE
  {
  }

  lemma StoreKeepsRing(b: Buffer, c: byte)
    requires Ring(b) && !Full(b)
    ensures Ring(Store(b, c))
  {
    Occupancy(b);
    SlotOf(|b.accepted|);
    NextCount(|b.accepted|, 1);
    var b' := Store(b, c);
    forall k: nat | |b.delivered| <= k < |b'.accepted|
      ensures b'.data[k % PIPESIZE] == b'.accepted[k]
    {
      if k < |b.accepted| {
        OtherSlot(k, |b.accepted|);
        assert b.data[k % PIPESIZE] == b.accepted[k];
      }
    }
    assert b'.accepted[..|b.delivered|] == b.accepted[..|b.delivered|];
  }

  lemma FetchKeepsRing(b: Buffer)
    requires Ring(b) && !Empty(b)
    ensures Ring(Fetch(b)) && Fetch(b).delivered == b.accepted[..|b.delivered| + 1]
  {
    Occupancy(b);
    SlotOf(|b.delivered|);
    NextCount(|b.delivered|, 1);
    assert b.data[|b.delivered| % PIPESIZE] == b.accepted[|b.delivered|];
  }

  // ---- The copying loops ----

  /** The fields of `struct pipe` that the loops of pipewrite and piperead update. */
  class RingBuffer {
    const data: array<byte>
    var nread: word
    var nwrite: word
    ghost var accepted: seq<byte>
    ghost var delivered: seq<byte>

    ghost function View(): Buffer
      reads this, data
    {
      Buffer(data[..], nread, nwrite, accepted, delivered)
    }

    ghost predicate Valid()
      reads this, data
    {
      Ring(View())
    }

    constructor ()
      ensures Valid() && accepted == delivered == [] && fresh(data)
    {
      data := new byte[PIPESIZE];
      nread, nwrite, accepted, delivered := 0, 0, [], [];
    }

    method Put(c: byte)
      requires Valid() && !Full(View())
      modifies `nwrite, `accepted, data
      ensures Valid() && View() == Store(old(View()), c)
    {
      StoreKeepsRing(View(), c);
      data[nwrite % PIPESIZE] := c;
      nwrite := (nwrite + 1) % UINT;
      accepted := accepted + [c];
    }

    method Get() returns (c: byte)
      requires Valid() && !Empty(View())
      modifies `nread, `delivered
      ensures Valid() && View() == Fetch(old(View())) && delivered == old(delivered) + [c]
    {
      FetchKeepsRing(View());
      c := data[nread % PIPESIZE];
      nread := (nread + 1) % UINT;
      delivered := delivered + [c];
    }

    /** pipewrite from byte `from` on until it is done or finds the pipe full. */
    method CopyIn(addr: seq<byte>, from: nat) returns (i: nat)
      requires Valid() && from <= |addr|
      modifies `nwrite, `accepted, data
      ensures Valid() && from <= i <= |addr| && accepted == old(accepted) + addr[from..i]
      ensures i < |addr| ==> |accepted| == |delivered| + PIPESIZE
    {
      i := from;
      while i < |addr| && nwrite != (nread + PIPESIZE) % UINT
        invariant Valid() && from <= i <= |addr| && accepted == old(accepted) + addr[from..i]
      {
        Put(addr[i]);
        i := i + 1;
        assert addr[from..i] == addr[from..i - 1] + [addr[i - 1]];
      }
      Occupancy(View());
    }

    /** The copying loop of piperead. */
    method CopyOut(n: nat) returns (got: seq<byte>)
      requires Valid()
      modifies `nread, `delivered
      ensures Valid() && delivered == old(delivered) + got && delivered <= accepted
      ensures |got| == if n <= |accepted| - |old(delivered)| then n else |accepted| - |old(delivered)|
    {
      got := [];
      while |got| < n && nread != nwrite
        invariant Valid() && |got| <= n && delivered == old(delivered) + got
        decreases n - |got|
      {
        var c := Get();
        got := got + [c];
      }
      Occupancy(View());
    }
  }

  // ---- Safety: every step ----

  /** Process p goes to pc, taking and giving up locks accordingly. */
  ghost predicate Moves(s: Pipe, p: nat, pc: Proc, s': Pipe) {
    && p < |s.procs| && s'.procs == s.procs[p := pc] && |s'.killed| == |s.killed|
    && LockMoves(s.lk, p, HoldsLk(s.procs[p]), HoldsLk(pc), s'.lk)
    && LockMoves(s.pt, p, HoldsPt(s.procs[p]), HoldsPt(pc), s'.pt)
  }

  /** It stays in the same system call, or leaves it. */
  ghost predicate TaskMoves(s: Pipe, p: nat, pc: Proc, s': Pipe) {
    && p < |s.procs| && TaskFits(pc) && (InRead(pc) ==> InRead(s.procs[p])) && (InWrite(pc) ==> InWrite(s.procs[p]))
    && (forall w :: Closing(pc, w) ==> Closing(s.procs[p], w))
    && s'.rfd == s.rfd && s'.wfd == s.wfd
    && (s.rfd ==> s'.readopen == s.readopen) && (s.wfd ==> s'.writeopen == s.writeopen)
  }

  lemma TaskMovesKeepsEnds(s: Pipe, p: nat, pc: Proc, s': Pipe)
    requires Ends(s) && TaskMoves(s, p, pc, s') && s'.procs == s.procs[p := pc]
    ensures Ends(s')
  {
    forall q: nat | q < |s'.procs|
      ensures TaskFits(s'.procs[q]) && (Closing(s'.procs[q], true) ==> !s'.wfd) &&
              (Closing(s'.procs[q], false) ==> !s'.rfd)
    {
      assert TaskFits(s.procs[q]);
    }
  }

  lemma DoMoves(s: Pipe, p: nat, k: Task)
    requires |s.killed| == |s.procs| && |s.io.data| == PIPESIZE && p < |s.procs| && s.procs[p] == At(k)
    requires k.Close? ==> if k.writable then !s.wfd else !s.rfd
    ensures var s' := Do(s, p, k); Moves(s, p, s'.procs[p], s') && TaskMoves(s, p, s'.procs[p], s')
  {
    hide Full, Empty, Store, Fetch;
  }

  lemma SuccessorFits(pc: Proc)
    requires !pc.Idle? && !pc.At? && TaskFits(pc)
    ensures TaskFits(Successor(pc))
  {
  }

  lemma SyncMoves(s: Pipe, p: nat)
    requires p < |s.procs| && TaskFits(s.procs[p]) && !s.procs[p].At? && !Blocked(s.procs[p], s.lk, s.pt)
    ensures var s' := Sync(s, p); Moves(s, p, s'.procs[p], s') && TaskMoves(s, p, s'.procs[p], s')
  {
    SuccessorMoves(s.procs[p], s.lk, s.pt, p);
    SuccessorFits(s.procs[p]);
    hide HoldsLk, HoldsPt, TaskFits, TakesLk, TakesPt, DropsLk, DropsPt, Successor;
  }

  lemma RouseMoves(s: Pipe, ch: Chan, j: nat)
    requires j < |s.procs| && TaskFits(s.procs[j])
    ensures var s' := Rouse(s, ch, j); Moves(s, j, s'.procs[j], s') && TaskMoves(s, j, s'.procs[j], s') && s'.io == s.io
  {
    assert s.procs[j := s.procs[j]] == s.procs;
  }

  lemma MovesKeepsSafe(s: Pipe, p: nat, s': Pipe)
    requires Safe(s) && p < |s.procs| <= |s'.procs| && Moves(s, p, s'.procs[p], s') &&
             TaskMoves(s, p, s'.procs[p], s') && Ring(s'.io)
    ensures Safe(s')
  {
    MoveKeepsLocks(s.procs, s.lk, s.pt, p, s'.procs[p], s'.lk, s'.pt);
    TaskMovesKeepsEnds(s, p, s'.procs[p], s');
  }

  lemma DoKeepsRing(s: Pipe, p: nat, k: Task)
    requires Ring(s.io) && p < |s.procs| == |s.killed|
    ensures Ring(Do(s, p, k).io) && s.io.accepted <= Do(s, p, k).io.accepted &&
            s.io.delivered <= Do(s, p, k).io.delivered
  {
    hide Ring, Full, Empty;
    if k.Write? && k.i < |k.buf| && !Full(s.io) {
      StoreKeepsRing(s.io, k.buf[k.i]);
    } else if k.ReadCopy? && |k.got| < k.n && !Empty(s.io) {
      FetchKeepsRing(s.io);
    }
  }

  lemma WakeStep(s: Pipe, p: nat, s': Pipe)
    requires Safe(s) && p < |s.procs| && s.procs[p].Wake1? && s.procs[p].j < |s.procs| && Next(s, p) == Some(s')
    ensures var mid := Rouse(s, s.procs[p].ch, s.procs[p].j);
            && Safe(mid) && mid.procs[p] == s.procs[p] &&
               s' == Goto(mid, p, Wake1(s.procs[p].ch, s.procs[p].j + 1, s.procs[p].k))
            && Safe(s')
  {
    var Wake1(ch, j, k) := s.procs[p];
    var mid := Rouse(s, ch, j);
    assert TaskFits(s.procs[j]) && TaskFits(s.procs[p]);
    RouseMoves(s, ch, j);
    MovesKeepsSafe(s, j, mid);
    assert Moves(mid, p, s'.procs[p], s') && TaskMoves(mid, p, s'.procs[p], s');
    MovesKeepsSafe(mid, p, s');
  }

  lemma StartKeepsSafe(s: Pipe, e: Event, s': Pipe)
    requires Safe(s) && Step(s, e, s') && e.Start?
    ensures Safe(s')
  {
    var pc := Lock(e.k);
    hide Ring;
    assert Moves(s, e.p, pc, s');
    MoveKeepsLocks(s.procs, s.lk, s.pt, e.p, pc, s'.lk, s'.pt);
    hide Moves, Locks;
    forall q: nat | q < |s'.procs|
      ensures TaskFits(s'.procs[q]) && (Closing(s'.procs[q], true) ==> !s'.wfd) &&
              (Closing(s'.procs[q], false) ==> !s'.rfd)
      ensures (!s'.rfd ==> !InRead(s'.procs[q])) && (!s'.wfd ==> !InWrite(s'.procs[q]))
    {
      assert TaskFits(s.procs[q]);
    }
  }

  lemma KillKeepsSafe(s: Pipe, e: Event, s': Pipe)
    requires Safe(s) && Step(s, e, s') && e.Kill?
    ensures Safe(s')
  {
    assert TaskFits(s.procs[e.p]);
    assert s.procs[e.p := s.procs[e.p]] == s.procs;
    assert Moves(s, e.p, s'.procs[e.p], s') && TaskMoves(s, e.p, s'.procs[e.p], s');
    MovesKeepsSafe(s, e.p, s');
  }

  lemma DoKeepsSafe(s: Pipe, p: nat, k: Task)
    requires Safe(s) && p < |s.procs| && s.procs[p] == At(k)
    ensures Safe(Do(s, p, k))
  {
    assert (Closing(s.procs[p], true) ==> !s.wfd) && (Closing(s.procs[p], false) ==> !s.rfd);
    DoMoves(s, p, k);
    DoKeepsRing(s, p, k);
    MovesKeepsSafe(s, p, Do(s, p, k));
  }

  lemma SyncKeepsSafe(s: Pipe, p: nat)
    requires Safe(s) && p < |s.procs| && !s.procs[p].At? && !Blocked(s.procs[p], s.lk, s.pt)
    ensures Safe(Sync(s, p))
  {
    assert TaskFits(s.procs[p]);
    SyncMoves(s, p);
    MovesKeepsSafe(s, p, Sync(s, p));
  }

  lemma RunKeepsSafe(s: Pipe, p: nat, s': Pipe)
    requires Safe(s) && p < |s.procs| && Next(s, p) == Some(s')
    ensures Safe(s') && s.io.accepted <= s'.io.accepted && s.io.delivered <= s'.io.delivered
  {
    hide Ring, Locks, Ends, TaskFits, Body;
    if s.procs[p].At? {
      DoKeepsSafe(s, p, s.procs[p].k);
      DoKeepsRing(s, p, s.procs[p].k);
    } else if s.procs[p].Wake1? && s.procs[p].j < |s.procs| {
      WakeStep(s, p, s');
    } else {
      SyncKeepsSafe(s, p);
    }
  }

  lemma StepKeepsSafe(s: Pipe, e: Event, s': Pipe)
    requires Safe(s) && Step(s, e, s')
    ensures Safe(s') && s.io.accepted <= s'.io.accepted && s.io.delivered <= s'.io.delivered
  {
    hide Safe, Next;
    match e
    case Start(p, k) => StartKeepsSafe(s, e, s');
    case Run(p) => RunKeepsSafe(s, p, s');
    case Kill(p) => KillKeepsSafe(s, e, s');
  }

  // ---- Wakeups ----

  /** What a process sleeping on ch waits for has not happened. */
  predicate MustWait(s: Pipe, ch: Chan) {
    match ch
    case Rd => Empty(s.io) && s.writeopen
    case Wr => Full(s.io) && s.readopen
  }

  /** The holder of the pipe's lock has yet to wake process p. */
  predicate WillWake(s: Pipe, ch: Chan, p: nat) {
    && s.lk != None && s.lk.value < |s.procs|
    && var pc := s.procs[s.lk.value];
       || StillToWake(pc, ch, p)
       || (pc.At? && if ch == Rd then pc.k.Write? else pc.k.ReadCopy?)
  }

  /** Process p is not asleep in vain. */
  predicate Served(s: Pipe, p: nat)
    requires p < |s.procs|
  {
    var pc := s.procs[p];
    && (SleepsOn(pc, Rd) ==> MustWait(s, Rd) || WillWake(s, Rd, p))
    && (SleepsOn(pc, Wr) ==> MustWait(s, Wr) || WillWake(s, Wr, p))
    && (AboutToSleep(pc, Rd) ==> MustWait(s, Rd))
    && (AboutToSleep(pc, Wr) || (!pc.Idle? && pc.k.WriteSleep?) ==> MustWait(s, Wr))
  }

  ghost predicate Signals(s: Pipe) {
    forall p: nat :: p < |s.procs| ==> Served(s, p)
  }

  ghost predicate SomeReaderSleeps(s: Pipe) {
    exists q :: 0 <= q < |s.procs| && SleepsOn(s.procs[q], Rd)
  }

  /** A killed writer gives up on a full pipe while a reader still sleeps. */
  ghost predicate Lossy(s: Pipe, e: Event) {
    && e.Run? && e.p < |s.procs| == |s.killed| && s.killed[e.p] && s.readopen && Full(s.io)
    && s.procs[e.p].At? && s.procs[e.p].k.Write? && s.procs[e.p].k.i < |s.procs[e.p].k.buf|
    && SomeReaderSleeps(s)
  }

  lemma SyncKeepsSignals(s: Pipe, p: nat, q: nat)
    requires Safe(s) && Signals(s) && p < |s.procs| && q < |s.procs| && !s.procs[p].At?
    requires !Blocked(s.procs[p], s.lk, s.pt) && (s.procs[p].Wake1? ==> s.procs[p].j >= |s.procs|)
    ensures Served(Sync(s, p), q)
  {
    assert Served(s, q) && Served(s, p);
    assert HoldsLk(s.procs[p]) <==> s.lk == Some(p);
    assert HoldsLk(s.procs[q]) <==> s.lk == Some(q);
    hide Signals, Locks, Ring, Ends, Full, Empty;
  }

  lemma DoKeepsSignals(s: Pipe, p: nat, q: nat)
    requires Safe(s) && Signals(s) && p < |s.procs| && q < |s.procs| && s.procs[p].At? && !Lossy(s, Run(p))
    ensures Served(Do(s, p, s.procs[p].k), q)
  {
    assert Served(s, q) && Served(s, p);
    assert HoldsLk(s.procs[p]) <==> s.lk == Some(p);
    assert HoldsLk(s.procs[q]) <==> s.lk == Some(q);
    assert !s.readopen ==> !SleepsOn(s.procs[q], Rd) by { assert TaskFits(s.procs[q]); }
    assert Full(s.io) ==> !Empty(s.io) by { Occupancy(s.io); }
    hide Signals, Locks, Ring, Ends, Full, Empty, Store, Fetch;
  }

  lemma WakeKeepsSignals(s: Pipe, p: nat, q: nat, s': Pipe)
    requires Safe(s) && Signals(s) && p < |s.procs| && q < |s.procs| && s.procs[p].Wake1? && s.procs[p].j < |s.procs|
    requires Next(s, p) == Some(s')
    ensures |s'.procs| == |s.procs| && Served(s', q)
  {
    assert Served(s, q) && Served(s, p);
    assert HoldsLk(s.procs[p]) <==> s.lk == Some(p);
    assert HoldsPt(s.procs[p]) <==> s.pt == Some(p);
    assert HoldsPt(s.procs[q]) <==> s.pt == Some(q);
    hide Signals, Locks, Ring, Ends, Full, Empty;
  }

  lemma StartKeepsSignals(s: Pipe, e: Event, s': Pipe, q: nat)
    requires Safe(s) && Signals(s) && Step(s, e, s') && (e.Start? || e.Kill?) && q < |s.procs|
    ensures |s'.procs| == |s.procs| && Served(s', q)
  {
    assert Served(s, q);
    assert HoldsLk(s.procs[e.p]) <==> s.lk == Some(e.p);
    hide Signals, Locks, Ring, Ends, Full, Empty;
  }

  /** A step keeps every sleeper waiting for a reason unless it is a killed writer giving up. */
  lemma StepKeepsSignals(s: Pipe, e: Event, s': Pipe)
    requires Safe(s) && Signals(s) && Step(s, e, s') && !Lossy(s, e)
    ensures Signals(s')
  {
    forall q: nat | q < |s'.procs|
      ensures Served(s', q)
    {
      if !e.Run? {
        StartKeepsSignals(s, e, s', q);
      } else if s.procs[e.p].At? {
        DoKeepsSignals(s, e.p, q);
      } else if s.procs[e.p].Wake1? && s.procs[e.p].j < |s.procs| {
        WakeKeepsSignals(s, e.p, q, s');
      } else {
        SyncKeepsSignals(s, e.p, q);
      }
    }
  }

  /** The step after which a reader sleeps on a non-empty pipe nobody is going to announce. */
  lemma LostExactlyWhenLossy(s: Pipe, e: Event, s': Pipe)
    requires Safe(s) && Signals(s) && Step(s, e, s')
    ensures Signals(s') <==> !Lossy(s, e)
  {
    if !Lossy(s, e) {
      StepKeepsSignals(s, e, s');
    } else {
      var q :| 0 <= q < |s.procs| && SleepsOn(s.procs[q], Rd);
      Occupancy(s.io);
      assert !Served(s', q);
    }
  }

  // ---- What one call of piperead returns ----

  /** A reader in its copying loop has taken the last bytes delivered. */
  ghost predicate Chunks(s: Pipe) {
    forall p: nat {:trigger s.procs[p]} :: p < |s.procs| && s.procs[p].At? && s.procs[p].k.ReadCopy? ==>
      Tail(s.io.delivered, s.procs[p].k.got) && |s.procs[p].k.got| <= s.procs[p].k.n
  }

  predicate Tail(all: seq<byte>, part: seq<byte>) {
    |part| <= |all| && all[|all| - |part|..] == part
  }

  lemma TailGrows(all: seq<byte>, part: seq<byte>, c: byte)
    requires Tail(all, part)
    ensures Tail(all + [c], part + [c])
  {
    assert (all + [c])[|all| - |part|..] == all[|all| - |part|..] + [c];
  }

  lemma StepKeepsChunks(s: Pipe, e: Event, s': Pipe)
    requires Safe(s) && Chunks(s) && Step(s, e, s')
    ensures Chunks(s')
  {
    forall q: nat | q < |s'.procs| && s'.procs[q].At? && s'.procs[q].k.ReadCopy?
      ensures Tail(s'.io.delivered, s'.procs[q].k.got) && |s'.procs[q].k.got| <= s'.procs[q].k.n
    {
      ChunkStep(s, e, s', q);
    }
  }

  lemma ChunkStep(s: Pipe, e: Event, s': Pipe, q: nat)
    requires Safe(s) && Chunks(s) && Step(s, e, s') && q < |s'.procs| && s'.procs[q].At? && s'.procs[q].k.ReadCopy?
    ensures Tail(s'.io.delivered, s'.procs[q].k.got) && |s'.procs[q].k.got| <= s'.procs[q].k.n
  {
    assert TaskFits(s.procs[q]);
    assert HoldsLk(s.procs[q]) <==> s.lk == Some(q);
    assert HoldsLk(s.procs[e.p]) <==> s.lk == Some(e.p);
    if e == Run(q) && s.procs[q].At? {
      CopyStep(s, q);
    } else {
      OtherChunk(s, e, s', q);
      ChunkAt(s, q);
    }
  }

  lemma OtherChunk(s: Pipe, e: Event, s': Pipe, q: nat)
    requires Step(s, e, s') && q < |s'.procs| == |s.procs| && s'.procs[q].At? && s'.procs[q].k.ReadCopy? &&
             TaskFits(s.procs[q])
    requires !(e == Run(q) && s.procs[q].At?) && (HoldsLk(s.procs[q]) <==> s.lk == Some(q)) &&
             (HoldsLk(s.procs[e.p]) <==> s.lk == Some(e.p))
    ensures s'.procs[q] == s.procs[q] && s'.io == s.io
  {
    hide Body, MayStart;
  }

  lemma ChunkAt(s: Pipe, q: nat)
    requires Chunks(s) && q < |s.procs| && s.procs[q].At? && s.procs[q].k.ReadCopy?
    ensures Tail(s.io.delivered, s.procs[q].k.got) && |s.procs[q].k.got| <= s.procs[q].k.n
  {
  }

  lemma CopyStep(s: Pipe, q: nat)
    requires Safe(s) && Chunks(s) && q < |s.procs| && s.procs[q].At?
    ensures var s' := Do(s, q, s.procs[q].k);
            s'.procs[q].At? && s'.procs[q].k.ReadCopy? ==>
              Tail(s'.io.delivered, s'.procs[q].k.got) && |s'.procs[q].k.got| <= s'.procs[q].k.n
  {
    if s.procs[q].k.ReadCopy? {
      ChunkAt(s, q);
      TailGrows(s.io.delivered, s.procs[q].k.got, s.io.data[s.io.nread % PIPESIZE]);
    }
    hide Locks, Ring, Ends, Chunks, Full, Empty;
  }

  // ---- Whole runs ----

  predicate Initial(s: Pipe) {
    && s.lk == None && s.pt == None && s.readopen && s.writeopen && s.rfd && s.wfd
    && |s.io.data| == PIPESIZE && s.io.nread == s.io.nwrite == 0 && s.io.accepted == s.io.delivered == []
    && |s.killed| == |s.procs| && forall p :: 0 <= p < |s.procs| ==> s.procs[p] == Idle
  }

  ghost predicate Execution(states: seq<Pipe>, events: seq<Event>) {
    && |states| == |events| + 1 && Initial(states[0])
    && forall i :: 0 <= i < |events| ==> Step(states[i], events[i], states[i + 1])
  }

  ghost predicate NoWriterGivesUp(states: seq<Pipe>, events: seq<Event>)
    requires |states| == |events| + 1
  {
    forall i :: 0 <= i < |events| ==> !Lossy(states[i], events[i])
  }

  lemma {:induction false} RunIsSafe(states: seq<Pipe>, events: seq<Event>, i: nat)
    requires Execution(states, events) && i < |states|
    ensures Safe(states[i]) && Chunks(states[i])
    ensures NoWriterGivesUp(states, events) ==> Signals(states[i])
    decreases i
  {
    if i > 0 {
      RunIsSafe(states, events, i - 1);
      var s, e, s' := states[i - 1], events[i - 1], states[i];
      assert Step(s, e, s');
      StepKeepsSafe(s, e, s');
      StepKeepsChunks(s, e, s');
      if NoWriterGivesUp(states, events) {
        assert !Lossy(s, e);
        StepKeepsSignals(s, e, s');
      }
    }
  }

  /**
   * In every run, with any number of readers and writers and however often the counters wrap, the bytes
   * delivered are a prefix of the bytes accepted, at most 512 are in the pipe, and its two tests are exact.
   */
  lemma PipeIsFifo(states: seq<Pipe>, events: seq<Event>, i: nat)
    requires Execution(states, events) && i < |states|
    ensures var b := states[i].io;
            && b.delivered <= b.accepted && (b.nwrite - b.nread) % UINT == |b.accepted| - |b.delivered| <= PIPESIZE
            && (Full(b) <==> |b.accepted| == |b.delivered| + PIPESIZE) && (Empty(b) <==> b.accepted == b.delivered)
  {
    RunIsSafe(states, events, i);
    Occupancy(states[i].io);
  }

  /**
   * Unless a killed writer has given up on a full pipe in front of a sleeping reader, whenever the pipe's
   * lock is free a sleeping reader faces an empty pipe that may still be written, and a sleeping writer
   * a full one that may still be read.
   */
  lemma NoLostWakeup(states: seq<Pipe>, events: seq<Event>, i: nat, p: nat)
    requires Execution(states, events) && NoWriterGivesUp(states, events) && i < |states| && p < |states[i].procs|
    requires states[i].lk == None
    ensures SleepsOn(states[i].procs[p], Rd) ==> Empty(states[i].io) && states[i].writeopen
    ensures SleepsOn(states[i].procs[p], Wr) ==> Full(states[i].io) && states[i].readopen
  {
    RunIsSafe(states, events, i);
    assert Served(states[i], p);
  }

  /** When no process can go on, each is outside the pipe or sleeps rightly; readers and writers never both sleep. */
  lemma NoDeadlock(states: seq<Pipe>, events: seq<Event>, i: nat, p: nat)
    requires Execution(states, events) && NoWriterGivesUp(states, events) && i < |states| && p < |states[i].procs|
    requires |states[i].killed| == |states[i].procs| && |states[i].io.data| == PIPESIZE
    requires forall q: nat :: q < |states[i].procs| ==> Next(states[i], q) == None
    ensures states[i].procs[p] == Idle || (states[i].procs[p].Asleep? && MustWait(states[i], states[i].procs[p].ch))
    ensures !(MustWait(states[i], Rd) && MustWait(states[i], Wr))
  {
    var s := states[i];
    RunIsSafe(states, events, i);
    Occupancy(s.io);
    forall q: nat {:trigger s.procs[q]} | q < |s.procs|
      ensures Blocked(s.procs[q], s.lk, s.pt)
    {
      assert Next(s, q) == None;
    }
    AllBlocked(s.procs, s.lk, s.pt);
    assert Next(s, p) == None && Served(s, p);
  }

  // ---- A killed writer can strand a reader ----

  ghost predicate Reachable(s: Pipe) {
    exists states, events :: Execution(states, events) && states[|states| - 1] == s
  }

  lemma ReachMore(s: Pipe, e: Event, s': Pipe)
    requires Reachable(s) && Safe(s) && Step(s, e, s')
    ensures Reachable(s') && Safe(s')
  {
    var states, events :| Execution(states, events) && states[|states| - 1] == s;
    StepKeepsSafe(s, e, s');
    var states', events' := states + [s'], events + [e];
    forall i | 0 <= i < |events'|
      ensures Step(states'[i], events'[i], states'[i + 1])
    {
      if i < |events| {
        assert Step(states[i], events[i], states[i + 1]);
      }
    }
    assert Execution(states', events');
  }

  function Zeros(n: nat): seq<byte> {
    seq<byte>(n, _ => 0)
  }

  /** A reader (process 0) sleeps; a writer (process 1) with more bytes than fit has the lock. */
  predicate Filling(s: Pipe, i: nat) {
    && s.procs == [Asleep(Rd, ReadTest(1)), At(Write(Zeros(PIPESIZE + 1), i))] && |s.killed| == 2 && s.pt == None &&
       s.readopen
    && s.io.delivered == [] && |s.io.accepted| == i
  }

  lemma {:induction false} FillPipe(s: Pipe, i: nat) returns (s': Pipe)
    requires Reachable(s) && Safe(s) && Filling(s, i) && i <= PIPESIZE
    ensures Reachable(s') && Safe(s') && Filling(s', PIPESIZE)
    decreases PIPESIZE - i
  {
    s' := s;
    Occupancy(s.io);
    if i < PIPESIZE {
      var t := Do(s, 1, s.procs[1].k);
      assert Step(s, Run(1), t);
      ReachMore(s, Run(1), t);
      s' := FillPipe(t, i + 1);
    }
  }

  /** One step of process p in a reachable state. */
  lemma RunOne(s: Pipe, p: nat) returns (s': Pipe)
    requires Reachable(s) && Safe(s) && p < |s.procs| && Next(s, p) != None
    ensures Next(s, p) == Some(s') && Reachable(s') && Safe(s')
  {
    s' := Next(s, p).value;
    ReachMore(s, Run(p), s');
  }

  lemma StartOne(s: Pipe, p: nat, k: Task) returns (s': Pipe)
    requires Reachable(s) && Safe(s) && p < |s.procs| && s.procs[p] == Idle && MayStart(s, k) && !k.Close?
    ensures s' == Goto(s, p, Lock(k)) && Reachable(s') && Safe(s')
  {
    s' := Goto(s, p, Lock(k));
    ReachMore(s, Start(p, k), s');
  }

  lemma InitialIsReachable(s: Pipe)
    requires Initial(s)
    ensures Reachable(s) && Safe(s)
  {
    assert Execution([s], []);
  }

  lemma ReaderSleeps() returns (s: Pipe)
    ensures Reachable(s) && Safe(s) && s.procs == [Asleep(Rd, ReadTest(1)), Idle] && s.killed == [false, false]
    ensures s.lk == None && s.pt == None && s.readopen && s.wfd && s.io.accepted == s.io.delivered == []
  {
    hide Reachable, Safe;
    s := Pipe(None, None, Buffer(Zeros(PIPESIZE), 0, 0, [], []), true, true, true, true, [Idle, Idle], [false, false]);
    InitialIsReachable(s);
    s := StartOne(s, 0, ReadTest(1));
    s := RunOne(s, 0);
    s := RunOne(s, 0);
    s := SleepThrough(s, 0);
  }

  /** The steps of sleep, uninterrupted. */
  lemma SleepThrough(s0: Pipe, p: nat) returns (s: Pipe)
    requires Reachable(s0) && Safe(s0) && p < |s0.procs| && s0.procs[p].Sleep0? && s0.pt == None
    ensures Reachable(s) && Safe(s) && s == Hop(s0, p, Asleep(s0.procs[p].ch, s0.procs[p].k), None, None)
  {
    s := RunOne(s0, p);
    s := RunOne(s, p);
    s := RunOne(s, p);
    s := RunOne(s, p);
  }

  /** A reachable state: the lock is free, the pipe is full and open, and its reader sleeps. */
  lemma KilledWriterStrandsReader() returns (s: Pipe)
    ensures Reachable(s) && s.lk == None && s.pt == None && Full(s.io)
    ensures s.procs == [Asleep(Rd, ReadTest(1)), Idle]
  {
    s := ReaderSleeps();
    s := StartOne(s, 1, Write(Zeros(PIPESIZE + 1), 0));
    s := RunOne(s, 1);
    s := FillPipe(s, 0);
    var dead := Goto(s, 1, s.procs[1]).(killed := s.killed[1 := true]);
    ReachMore(s, Kill(1), dead);
    Occupancy(dead.io);
    s := RunOne(dead, 1);
  }
}
