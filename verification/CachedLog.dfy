/**
 * log.c and bio.c together, under any interleaving. Processes inside and outside of operations use the
 * buffer cache at any time, also for reading blocks that are being committed; begin_op, log_write and end_op
 * change the log; the process that commits or recovers fills and writes buffers it has locked. The disk and the
 * contents of blocks are those of the cache alone. Every run is one of the log protocol.
 */
module CachedLog {
  import opened Blocks
  import opened Options
  import opened RedoLog
  import opened Sequences
  import opened BufferCache
  import opened Log
  import opened LogOverCache
  import LP = LogProtocol
  import LD = LogDurability
  import CP = CacheProtocol

  /** `struct log`, and the history of LogProtocol. */
  datatype Control = Control(
    lh: seq<nat>, outstanding: nat, phase: LP.Phase,
    base: Disk, active: map<LP.Op, nat>, begun: set<LP.Op>, issued: seq<LP.Write>, current: LP.Txn,
    committed: seq<LP.Txn>)

  datatype Joint = Joint(
    c: CP.State,
    log: Control,
    doing: map<CP.Pid, LP.Op>,       // the operation each process is in
    writer: CP.Pid,                  // the process in commit or recover_from_log
    filled: Option<nat>)             // the buffer it has filled and not yet written

  datatype Step =
    | Touch(step: CP.Step)                       // bget, acquiresleep, disk read, brelse, by anybody
    | Modify(p: CP.Pid, i: nat, x: Block)        // a process in an operation changes a buffer it has locked
    | LogWrite(p: CP.Pid, i: nat)
    | BeginOp(p: CP.Pid, op: LP.Op)
    | EndOp(p: CP.Pid)
    | Prepare(i: nat, from: nat)                 // the writer fills buffer i from buffer `from`
    | Flush                                      // and writes it
    | Finish
    | ReadHead(p: CP.Pid, i: nat)
    | Crash

  function Abs(j: Joint): LP.State {
    LP.State(j.c.disk, j.c.view, j.log.lh, j.log.outstanding, j.log.phase, j.log.base, j.log.active, j.log.begun,
             j.log.issued, j.log.current, j.log.committed)
  }

  function ControlOf(s: LP.State): Control {
    Control(s.lh, s.outstanding, s.phase, s.base, s.active, s.begun, s.issued, s.current, s.committed)
  }

  // ---- The steps ----

  /** What the writer copies from: the block that goes to the log, the log slot, or the header itself. */
  function SourceBlock(L: Layout, s: LP.State): nat
    requires LP.Shape(L, s) && LP.Enabled(L, s, LP.Advance)
  {
    if s.phase.tail == |s.lh| then L.start
    else if s.phase.CopyToLog? then s.lh[s.phase.tail]
    else L.start + 1 + s.phase.tail
  }

  /** What it makes of the contents x of that buffer. */
  function Prepared(L: Layout, s: LP.State, x: Block): Block
    requires LP.Shape(L, s) && LP.Enabled(L, s, LP.Advance)
  {
    if s.phase.tail == |s.lh| then EncodeHeader(x, if s.phase.CopyToLog? then s.lh else []) else x
  }

  /** Process p has buffer i of block b locked and filled, and has not changed it. */
  predicate HasClean(c: CP.State, p: CP.Pid, i: nat, b: nat) {
    CP.Uses(c, p, i, CP.Holding) && i < |c.bufs| && c.bufs[i].valid && c.bufs[i].blockno == b && i !in c.draft
  }

  /** The block numbers in a header block. */
  function Decoded(b: Block): seq<nat>
    requires GetWord(b, 0) <= LOGSIZE
  {
    seq(GetWord(b, 0), i requires 0 <= i < GetWord(b, 0) => GetWord(b, i + 1))
  }

  ghost predicate Ready(L: Layout, j: Joint) {
    CP.Shape(j.c) && LP.Shape(L, Abs(j))
  }

  ghost predicate Enabled(L: Layout, j: Joint, step: Step)
    requires Ready(L, j)
  {
    var c, s := j.c, Abs(j);
    match step
    case Touch(t) => (t.Get? || t.Acquire? || t.Fill? || t.Release? || t.Drop?) && CP.Enabled(c, t)
    case Modify(p, i, x) => p in j.doing && CP.Enabled(c, CP.Store(p, i, x))
    case LogWrite(p, i) =>
      && p in j.doing && CP.Enabled(c, CP.LogWrite(p, i))
      && LP.Enabled(L, s, LP.LogWrite(j.doing[p], c.bufs[i].blockno, CP.Data(c, i)))
    case BeginOp(p, op) => p !in j.doing && LP.Enabled(L, s, LP.BeginOp(op))
    case EndOp(p) =>
      && p in j.doing && LP.Enabled(L, s, LP.EndOp(j.doing[p]))
      && forall i :: 0 <= i < NBUF && i in c.draft ==> c.bufs[i].holder != Some(p)
    case Prepare(i, from) =>
      && LP.Enabled(L, s, LP.Advance) && j.filled == None
      && HasClean(c, j.writer, i, AdvanceBlock(L, s)) && HasClean(c, j.writer, from, SourceBlock(L, s))
    case Flush => j.filled.Some? && LP.Enabled(L, s, LP.Advance) && CP.Enabled(c, CP.Write(j.writer, j.filled.value))
    case Finish => LP.Enabled(L, s, LP.Finish)
    case ReadHead(p, i) =>
      // The last conjunct always holds: HeadDecodes.
      LP.Enabled(L, s, LP.ReadHead) && HasClean(c, p, i, L.start) && GetWord(c.bufs[i].data, 0) <= LOGSIZE
    case Crash => true
  }

  ghost function Next(L: Layout, j: Joint, step: Step): Joint
    requires Ready(L, j) && Enabled(L, j, step)
  {
    var c, s := j.c, Abs(j);
    match step
    case Touch(t) => j.(c := CP.Next(c, t))
    case Modify(p, i, x) => j.(c := CP.Next(c, CP.Store(p, i, x)))
    case LogWrite(p, i) =>
      j.(c := CP.Next(c, CP.LogWrite(p, i)),
         log := ControlOf(LP.Log(s, j.doing[p], c.bufs[i].blockno, CP.Data(c, i))))
    case BeginOp(p, op) => j.(log := ControlOf(LP.Begin(s, op)), doing := j.doing[p := op])
    case EndOp(p) => j.(log := ControlOf(LP.End(s, j.doing[p])), doing := j.doing - {p}, writer := p)
    case Prepare(i, from) =>
      j.(c := CP.Next(c, CP.Store(j.writer, i, Prepared(L, s, CP.Data(c, from)))), filled := Some(i))
    case Flush => j.(c := CP.Next(c, CP.Write(j.writer, j.filled.value)), log := Advanced(j.log), filled := None)
    case Finish => j.(log := j.log.(phase := LP.Running))
    case ReadHead(p, i) =>
      j.(log := j.log.(lh := Decoded(c.bufs[i].data), phase := LP.Replaying(0)), writer := p)
    case Crash =>
      Joint(Restart(c), ControlOf(LP.Reboot(s)), map[], 0, None)
  }

  /** What the writer knows after a write, from its own place in the code. */
  function Advanced(log: Control): Control
    requires log.phase.CopyToLog? || log.phase.Installing? || log.phase.Replaying?
  {
    var tail := log.phase.tail;
    if log.phase.CopyToLog? && tail < |log.lh| then log.(phase := LP.CopyToLog(tail + 1))
    else if log.phase.CopyToLog? then
      log.(phase := LP.Installing(0), current := LP.EmptyTxn, committed := log.committed + [log.current])
    else if tail < |log.lh| then
      log.(phase := if log.phase.Installing? then LP.Installing(tail + 1) else LP.Replaying(tail + 1))
    else log.(lh := [], phase := if log.phase.Installing? then LP.Committed else LP.Running)
  }

  // ---- The invariant ----

  /** Each process in an operation has its own, and it is open. */
  ghost predicate Workers(j: Joint) {
    && (forall p :: p in j.doing ==> j.doing[p] in j.log.active)
    && (forall p, q :: p in j.doing && q in j.doing && p != q ==> j.doing[p] != j.doing[q])
  }

  /** Changes not yet logged or written are those of processes in operations, and the writer's. */
  ghost predicate Drafts(j: Joint) {
    forall i {:trigger j.c.draft[i]} :: i in j.c.draft && j.filled != Some(i) ==>
      i < |j.c.bufs| && j.c.bufs[i].holder.Some? && j.c.bufs[i].holder.value in j.doing
  }

  /** What the writer has filled is what the log protocol writes next. */
  ghost predicate Filled(L: Layout, j: Joint)
    requires Ready(L, j)
  {
    j.filled.Some? ==>
      var i := j.filled.value;
      && LP.Enabled(L, Abs(j), LP.Advance) && CP.Uses(j.c, j.writer, i, CP.Holding) && i in j.c.draft
      && j.c.bufs[i].blockno == AdvanceBlock(L, Abs(j)) && j.c.draft[i] == AdvanceData(L, Abs(j))
  }

  ghost predicate Inv(L: Layout, j: Joint) {
    && CP.Inv(j.c) && LP.Inv(L, Abs(j)) && PinnedExactly(j.c.bufs, StillLogged(Abs(j)))
    && Workers(j) && Drafts(j) && Filled(L, j)
  }

  ghost predicate Init(L: Layout, j: Joint) {
    && LP.Init(L, Abs(j)) && CP.Init(j.c) && j.doing == map[] && j.filled == None
  }

  lemma InitEstablishesInv(L: Layout, j: Joint)
    requires Init(L, j)
    ensures Inv(L, j)
  {
    LP.InitEstablishesInv(L, Abs(j));
    CP.InitEstablishesInv(j.c);
    assert StillLogged(Abs(j)) == {};
  }

  /** The step of the log protocol that a step is, if it is one. */
  function LogStep(j: Joint, step: Step): Option<LP.Step> {
    match step
    case LogWrite(p, i) =>
      if p in j.doing && i < |j.c.bufs| then
        Some(LP.LogWrite(j.doing[p], j.c.bufs[i].blockno, CP.Data(j.c, i)))
      else None
    case BeginOp(p, op) => Some(LP.BeginOp(op))
    case EndOp(p) => if p in j.doing then Some(LP.EndOp(j.doing[p])) else None
    case Flush => Some(LP.Advance)
    case Finish => Some(LP.Finish)
    case ReadHead(p, i) => Some(LP.ReadHead)
    case Crash => Some(LP.Crash)
    case _ => None
  }

  /** What a step is to the log protocol: a step of its own, or nothing. */
  ghost predicate Matches(L: Layout, j: Joint, step: Step, j': Joint) {
    match LogStep(j, step)
    case None => Abs(j') == Abs(j)
    case Some(t) => LP.Shape(L, Abs(j)) && LP.Enabled(L, Abs(j), t) && Abs(j') == LP.Next(L, Abs(j), t)
  }

  // ---- Steps of the cache alone ----

  predicate OfCache(t: CP.Step) {
    t.Get? || t.Acquire? || t.Fill? || t.Release? || t.Drop?
  }

  /** They change no contents, no pins and no drafts. */
  lemma TouchKeepsContents(c: CP.State, t: CP.Step)
    requires CP.Inv(c) && CP.Enabled(c, t) && OfCache(t)
    ensures var c' := CP.Next(c, t);
            && c'.disk == c.disk && c'.view == c.view && c'.draft == c.draft
            && forall b :: Pinned(c'.bufs, b) <==> Pinned(c.bufs, b)
  {
    var c' := CP.Next(c, t);
    var i := if t.Get? then Chosen(c.bufs, c.order, t.b).value else t.i;
    if t.Get? {
      CP.ClaimKeepsCoherent(c, t.b);
    }
    PinnedUnchanged(c.bufs, i, c'.bufs[i]);
  }

  /** Buffer i is locked by the same process, for the same block. */
  ghost predicate SameLock(c: CP.State, c': CP.State, i: nat) {
    && i < |c.bufs| == |c'.bufs| && c'.bufs[i].holder == c.bufs[i].holder && c'.bufs[i].blockno == c.bufs[i].blockno
    && forall p :: CP.Uses(c, p, i, CP.Holding) ==> CP.Uses(c', p, i, CP.Holding)
  }

  lemma HeldIsReferenced(c: CP.State, i: nat)
    requires CP.Inv(c) && i < NBUF && c.bufs[i].holder.Some?
    ensures c.bufs[i].refcnt > 0
  {
    assert CP.UseAgrees(c.bufs[i], c.users[i]);
    CP.InUse(c, c.bufs[i].holder.value, i);
  }

  lemma GetKeepsLock(c: CP.State, p: CP.Pid, b: nat, i: nat)
    requires CP.Inv(c) && CP.Enabled(c, CP.Get(p, b)) && i < NBUF && c.bufs[i].holder.Some?
    ensures SameLock(c, CP.Next(c, CP.Get(p, b)), i)
  {
    HeldIsReferenced(c, i);
    CP.ClaimKeepsCoherent(c, b);
    hide CP.UsersInv, Unique, Coherent, Permutation, Chosen;
  }

  lemma OtherKeepsLock(c: CP.State, t: CP.Step, i: nat)
    requires CP.Shape(c) && CP.Enabled(c, t) && (t.Acquire? || t.Fill? || t.Release? || t.Drop?)
    requires i < NBUF && c.bufs[i].holder.Some? && i in c.draft
    ensures SameLock(c, CP.Next(c, t), i)
  {
    hide Permutation;
    if t.i == i {
      assert t.Fill? || t.Drop?;
    }
  }

  /** A buffer with unlogged changes stays so. */
  lemma TouchKeepsLock(c: CP.State, t: CP.Step, i: nat)
    requires CP.Inv(c) && CP.Enabled(c, t) && OfCache(t) && i in c.draft
    ensures SameLock(c, CP.Next(c, t), i)
  {
    assert i < NBUF && c.bufs[i].holder.Some?;
    if t.Get? {
      GetKeepsLock(c, t.p, t.b, i);
      hide CP.Next, CP.Enabled, CP.UsersInv, Unique, Coherent, Permutation, SameLock;
    } else {
      OtherKeepsLock(c, t, i);
      hide CP.Next, CP.Enabled, CP.UsersInv, Unique, Coherent, Permutation, SameLock;
    }
  }

  /** All that a step of the cache alone may do. */
  ghost predicate Untouched(c: CP.State, c': CP.State) {
    && c'.disk == c.disk && c'.view == c.view && c'.draft == c.draft
    && (forall b :: Pinned(c'.bufs, b) <==> Pinned(c.bufs, b))
    && (forall i :: i in c.draft ==> SameLock(c, c', i))
  }

  lemma TouchLeaves(c: CP.State, t: CP.Step)
    requires CP.Inv(c) && CP.Enabled(c, t) && OfCache(t)
    ensures Untouched(c, CP.Next(c, t))
  {
    hide CP.Next, CP.Enabled, CP.UsersInv, Unique, Coherent, Permutation;
    TouchKeepsContents(c, t);
    forall i | i in c.draft
      ensures SameLock(c, CP.Next(c, t), i)
    {
      TouchKeepsLock(c, t, i);
    }
  }

  /** The invariant, when only the cache has moved. */
  lemma UntouchedKeepsInv(L: Layout, j: Joint, c': CP.State)
    requires Inv(L, j) && CP.Inv(c') && Untouched(j.c, c')
    ensures Inv(L, j.(c := c')) && Abs(j.(c := c')) == Abs(j)
  {
    hide CP.UsersInv, Unique, Coherent, Permutation, LP.SpaceInv, LP.HistoryInv, LP.DiskInv;
    hide LP.Enabled, AdvanceBlock, AdvanceData, StillLogged;
    var j' := j.(c := c');
    assert Abs(j') == Abs(j);
    assert Ready(L, j');
    forall i {:trigger j'.c.draft[i]} | i in j'.c.draft && j'.filled != Some(i)
      ensures i < |j'.c.bufs| && j'.c.bufs[i].holder.Some? && j'.c.bufs[i].holder.value in j'.doing
    {
      assert j.c.draft[i] == j'.c.draft[i] && SameLock(j.c, c', i);
    }
    if j.filled.Some? {
      assert SameLock(j.c, c', j.filled.value);
    }
  }

  lemma TouchRefines(L: Layout, j: Joint, t: CP.Step)
    requires Inv(L, j) && Enabled(L, j, Touch(t))
    ensures Inv(L, Next(L, j, Touch(t))) && Matches(L, j, Touch(t), Next(L, j, Touch(t)))
  {
    hide CP.Next, CP.Enabled, LP.SpaceInv, LP.HistoryInv, LP.DiskInv, Untouched;
    CP.StepKeepsInv(j.c, t);
    TouchLeaves(j.c, t);
    UntouchedKeepsInv(L, j, CP.Next(j.c, t));
  }

  // ---- Operations ----

  /** While an operation is open nobody commits. */
  lemma WorkersRun(L: Layout, j: Joint, p: CP.Pid)
    requires Inv(L, j) && p in j.doing
    ensures j.log.phase == LP.Running && j.filled == None && j.doing[p] in j.log.active
  {
    hide LP.HistoryInv, LP.DiskInv, CP.UsersInv, Unique, Coherent, Permutation, Drafts;
    assert j.doing[p] in j.log.active;
  }

  lemma HolderIs(c: CP.State, p: CP.Pid, i: nat)
    requires CP.Inv(c) && CP.Uses(c, p, i, CP.Holding)
    ensures i < NBUF && c.bufs[i].holder == Some(p) && c.bufs[i].dev == ROOTDEV && c.bufs[i].blockno < |c.disk|
  {
    assert CP.UseAgrees(c.bufs[i], c.users[i]);
    CP.InUse(c, p, i);
  }

  /** Drafts after a step that ends some, and for which those of `doing` stay in operations unless they have none. */
  lemma FewerDrafts(j: Joint, j': Joint)
    requires Drafts(j) && j.filled == None && j'.filled == None
    requires forall k :: k in j'.c.draft ==>
               && k in j.c.draft && k < |j'.c.bufs| == |j.c.bufs| && j'.c.bufs[k].holder == j.c.bufs[k].holder
               && (j.c.bufs[k].holder.Some? && j.c.bufs[k].holder.value in j.doing ==>
                     j.c.bufs[k].holder.value in j'.doing)
    ensures Drafts(j')
  {
    forall k {:trigger j'.c.draft[k]} | k in j'.c.draft
      ensures k < |j'.c.bufs| && j'.c.bufs[k].holder.Some? && j'.c.bufs[k].holder.value in j'.doing
    {
      assert j.c.draft[k] == j.c.draft[k];
    }
  }

  /** The invariant from its parts, when the writer has filled nothing. */
  lemma Assemble(L: Layout, j: Joint)
    requires CP.Inv(j.c) && LP.Inv(L, Abs(j)) && PinnedExactly(j.c.bufs, StillLogged(Abs(j)))
    requires Workers(j) && Drafts(j) && j.filled == None
    ensures Inv(L, j)
  {
  }

  lemma ModifyRefines(L: Layout, j: Joint, p: CP.Pid, i: nat, x: Block)
    requires Inv(L, j) && Enabled(L, j, Modify(p, i, x))
    ensures Inv(L, Next(L, j, Modify(p, i, x))) && Matches(L, j, Modify(p, i, x), Next(L, j, Modify(p, i, x)))
  {
    hide CP.UsersInv, Unique, Coherent, Permutation, LP.SpaceInv, LP.HistoryInv, LP.DiskInv, StillLogged, PinnedExactly;
    WorkersRun(L, j, p);
    HolderIs(j.c, p, i);
    CP.StepKeepsInv(j.c, CP.Store(p, i, x));
    var j' := Next(L, j, Modify(p, i, x));
    assert Abs(j') == Abs(j);
    MoreDrafts(j, j', i);
    hide Workers, Drafts, Filled, CP.Next, CP.Enabled;
    Assemble(L, j');
  }

  lemma MoreDrafts(j: Joint, j': Joint, i: nat)
    requires Drafts(j) && j.filled == None && j'.doing == j.doing && i < |j.c.bufs| && j'.c.bufs == j.c.bufs
    requires forall k :: k in j'.c.draft ==> k == i || k in j.c.draft
    requires j.c.bufs[i].holder.Some? && j.c.bufs[i].holder.value in j.doing
    ensures Drafts(j')
  {
    forall k {:trigger j'.c.draft[k]} | k in j'.c.draft && j'.filled != Some(k)
      ensures k < |j'.c.bufs| && j'.c.bufs[k].holder.Some? && j'.c.bufs[k].holder.value in j'.doing
    {
      if k != i {
        assert j.c.draft[k] == j.c.draft[k];
      }
    }
  }

  lemma LogWriteRefines(L: Layout, j: Joint, p: CP.Pid, i: nat)
    requires Inv(L, j) && Enabled(L, j, LogWrite(p, i))
    ensures Inv(L, Next(L, j, LogWrite(p, i))) && Matches(L, j, LogWrite(p, i), Next(L, j, LogWrite(p, i)))
  {
    hide CP.UsersInv, Unique, Coherent, Permutation, LP.SpaceInv, LP.HistoryInv, LP.DiskInv, StillLogged, PinnedExactly;
    var s, j', b, x := Abs(j), Next(L, j, LogWrite(p, i)), j.c.bufs[i].blockno, CP.Data(j.c, i);
    WorkersRun(L, j, p);
    HolderIs(j.c, p, i);
    CP.StepKeepsInv(j.c, CP.LogWrite(p, i));
    LP.StepKeepsInv(L, s, LP.LogWrite(j.doing[p], b, x));
    LogWriteAdds(L, s, j.doing[p], b, x);
    FlushPins(j.c, p, i, true, StillLogged(s));
    assert Abs(j') == LP.Log(s, j.doing[p], b, x);
    FewerDrafts(j, j');
    assert Workers(j');
    hide Workers, Drafts, Filled, CP.Next, CP.Enabled, LP.Log;
    Assemble(L, j');
  }

  /** log_write pins the block and bwrite unpins it. */
  lemma FlushPins(c: CP.State, p: CP.Pid, i: nat, log: bool, pinned: set<nat>)
    requires CP.Inv(c) && CP.Enabled(c, if log then CP.LogWrite(p, i) else CP.Write(p, i))
    requires PinnedExactly(c.bufs, pinned)
    ensures var c', b := CP.Next(c, if log then CP.LogWrite(p, i) else CP.Write(p, i)), c.bufs[i].blockno;
            PinnedExactly(c'.bufs, if log then pinned + {b} else pinned - {b})
  {
    HolderIs(c, p, i);
    var step := if log then CP.LogWrite(p, i) else CP.Write(p, i);
    CP.StepKeepsInv(c, step);
    var c' := CP.Next(c, step);
    assert c'.bufs == c.bufs[i := c'.bufs[i]];
    PinnedAfter(c.bufs, i, c'.bufs[i], c.bufs[i].blockno, log, pinned, c.disk, c.view);
    hide CP.UsersInv, Unique, Coherent, Permutation, PinnedExactly;
  }

  lemma BeginRefines(L: Layout, j: Joint, p: CP.Pid, op: LP.Op)
    requires Inv(L, j) && Enabled(L, j, BeginOp(p, op))
    ensures Inv(L, Next(L, j, BeginOp(p, op))) && Matches(L, j, BeginOp(p, op), Next(L, j, BeginOp(p, op)))
  {
    hide CP.UsersInv, Unique, Coherent, Permutation, LP.SpaceInv, LP.DiskInv, StillLogged, PinnedExactly;
    var s, j' := Abs(j), Next(L, j, BeginOp(p, op));
    LP.StepKeepsInv(L, s, LP.BeginOp(op));
    OthersTouchNothing(L, s, LP.BeginOp(op));
    assert Abs(j') == LP.Begin(s, op);
    assert op !in s.active;
    hide LP.HistoryInv;
    FewerDrafts(j, j');
    assert Workers(j');
    hide Workers, Drafts, Filled, LP.Begin;
    Assemble(L, j');
  }

  lemma EndRefines(L: Layout, j: Joint, p: CP.Pid)
    requires Inv(L, j) && Enabled(L, j, EndOp(p))
    ensures Inv(L, Next(L, j, EndOp(p))) && Matches(L, j, EndOp(p), Next(L, j, EndOp(p)))
  {
    hide CP.UsersInv, Unique, Coherent, Permutation, LP.SpaceInv, LP.HistoryInv, LP.DiskInv, StillLogged, PinnedExactly;
    var s, j', op := Abs(j), Next(L, j, EndOp(p)), j.doing[p];
    WorkersRun(L, j, p);
    LP.StepKeepsInv(L, s, LP.EndOp(op));
    OthersTouchNothing(L, s, LP.EndOp(op));
    assert Abs(j') == LP.End(s, op);
    DraftsInRange(j.c);
    FewerDrafts(j, j');
    assert Workers(j');
    hide Workers, Drafts, Filled, LP.End;
    Assemble(L, j');
  }

  lemma DraftsInRange(c: CP.State)
    requires CP.Inv(c)
    ensures forall k :: k in c.draft ==> k < |c.bufs| == NBUF
  {
  }

  // ---- The writer ----

  /** Whoever has a block locked, filled and unchanged sees its latest content. */
  lemma CleanShows(c: CP.State, p: CP.Pid, i: nat, b: nat)
    requires CP.Inv(c) && HasClean(c, p, i, b)
    ensures b < |c.view| == |c.disk| && CP.Data(c, i) == c.bufs[i].data == c.view[b]
  {
    HolderIs(c, p, i);
    assert BufferCoherent(c.bufs[i], c.view);
  }

  lemma NotPinnedOnDisk(c: CP.State, s: LP.State, b: nat)
    requires CP.Inv(c) && PinnedExactly(c.bufs, StillLogged(s)) && b < |c.disk| && b !in StillLogged(s)
    ensures |c.view| == |c.disk| && c.view[b] == c.disk[b]
  {
    assert !Pinned(c.bufs, b);
  }

  /** Only home blocks are pinned. */
  lemma PinnedIsHome(L: Layout, s: LP.State, b: nat)
    requires LP.Shape(L, s) && L.InLog(b)
    ensures b !in StillLogged(s)
  {
  }

  /** What the writer puts into the buffer is what the log protocol writes. */
  lemma PreparesRight(L: Layout, j: Joint, i: nat, from: nat)
    requires Inv(L, j) && Enabled(L, j, Prepare(i, from))
    ensures Prepared(L, Abs(j), CP.Data(j.c, from)) == AdvanceData(L, Abs(j))
  {
    hide CP.UsersInv, Unique, Coherent, Permutation, LP.SpaceInv, LP.HistoryInv, LP.DiskInv, StillLogged, PinnedExactly;
    hide Workers, Drafts, Filled, EncodeHeader;
    var s := Abs(j);
    CleanShows(j.c, j.writer, from, SourceBlock(L, s));
    if s.phase.tail == |s.lh| || !s.phase.CopyToLog? {
      assert L.InLog(SourceBlock(L, s));
      PinnedIsHome(L, s, SourceBlock(L, s));
      NotPinnedOnDisk(j.c, s, SourceBlock(L, s));
    }
  }

  lemma PrepareRefines(L: Layout, j: Joint, i: nat, from: nat)
    requires Inv(L, j) && Enabled(L, j, Prepare(i, from))
    ensures Inv(L, Next(L, j, Prepare(i, from))) && Matches(L, j, Prepare(i, from), Next(L, j, Prepare(i, from)))
  {
    hide CP.UsersInv, Unique, Coherent, Permutation, LP.SpaceInv, LP.HistoryInv, LP.DiskInv, StillLogged, PinnedExactly;
    hide LP.Enabled, AdvanceBlock, AdvanceData, SourceBlock, Prepared;
    PreparesRight(L, j, i, from);
    var x := Prepared(L, Abs(j), CP.Data(j.c, from));
    CP.StepKeepsInv(j.c, CP.Store(j.writer, i, x));
    var j' := Next(L, j, Prepare(i, from));
    assert Abs(j') == Abs(j);
    assert Drafts(j') by {
      forall k {:trigger j'.c.draft[k]} | k in j'.c.draft && j'.filled != Some(k)
        ensures k < |j'.c.bufs| && j'.c.bufs[k].holder.Some? && j'.c.bufs[k].holder.value in j'.doing
      {
        assert j.c.draft[k] == j'.c.draft[k];
      }
    }
    assert Filled(L, j');
    hide Drafts, Filled;
  }

  lemma AdvancedIs(L: Layout, s: LP.State)
    requires LP.Shape(L, s) && LP.Enabled(L, s, LP.Advance)
    ensures ControlOf(LP.DiskWrite(L, s)) == Advanced(ControlOf(s))
  {
  }

  /** bwrite of a filled buffer. */
  lemma WriteEffect(c: CP.State, p: CP.Pid, i: nat)
    requires CP.Inv(c) && CP.Enabled(c, CP.Write(p, i)) && i in c.draft
    ensures var c', b := CP.Next(c, CP.Write(p, i)), c.bufs[i].blockno;
            && b < |c.disk| == |c.view| && c'.disk == c.disk[b := c.draft[i]] && c'.view == c.view[b := c.draft[i]]
            && c'.draft == c.draft - {i} && |c'.bufs| == |c.bufs|
            && forall k :: 0 <= k < |c.bufs| ==> c'.bufs[k].holder == c.bufs[k].holder
  {
    hide CP.UsersInv, Unique, Coherent, Permutation;
  }

  lemma FlushAbs(L: Layout, j: Joint)
    requires Inv(L, j) && Enabled(L, j, Flush)
    ensures Abs(Next(L, j, Flush)) == LP.DiskWrite(L, Abs(j)) == LP.Next(L, Abs(j), LP.Advance)
    ensures StillLogged(LP.DiskWrite(L, Abs(j))) == StillLogged(Abs(j)) - {j.c.bufs[j.filled.value].blockno}
  {
    hide CP.UsersInv, Unique, Coherent, Permutation, LP.HistoryInv, LP.DiskInv, StillLogged, PinnedExactly;
    hide Workers, Drafts;
    hide LP.DiskWrite, AdvanceBlock, AdvanceData, Advanced, CP.Next, CP.Enabled;
    WriteEffect(j.c, j.writer, j.filled.value);
    AdvanceWrites(L, Abs(j));
    AdvancedIs(L, Abs(j));
  }

  lemma FlushDrafts(j: Joint, j': Joint, i: nat)
    requires Drafts(j) && j.filled == Some(i) && j'.filled == None && j'.doing == j.doing
    requires j'.c.draft == j.c.draft - {i} && |j'.c.bufs| == |j.c.bufs|
    requires forall k :: 0 <= k < |j.c.bufs| ==> j'.c.bufs[k].holder == j.c.bufs[k].holder
    ensures Drafts(j')
  {
    forall k {:trigger j'.c.draft[k]} | k in j'.c.draft
      ensures k < |j'.c.bufs| && j'.c.bufs[k].holder.Some? && j'.c.bufs[k].holder.value in j'.doing
    {
      assert j.c.draft[k] == j'.c.draft[k];
    }
  }

  lemma FlushRefines(L: Layout, j: Joint)
    requires Inv(L, j) && Enabled(L, j, Flush)
    ensures Inv(L, Next(L, j, Flush)) && Matches(L, j, Flush, Next(L, j, Flush))
  {
    hide CP.UsersInv, Unique, Coherent, Permutation, LP.SpaceInv, LP.HistoryInv, LP.DiskInv, StillLogged, PinnedExactly;
    hide LP.DiskWrite, AdvanceBlock, AdvanceData, CP.Next, CP.Enabled, LP.Next, Drafts;
    var s, j', i := Abs(j), Next(L, j, Flush), j.filled.value;
    CP.StepKeepsInv(j.c, CP.Write(j.writer, i));
    LP.StepKeepsInv(L, s, LP.Advance);
    FlushAbs(L, j);
    FlushPins(j.c, j.writer, i, false, StillLogged(s));
    WriteEffect(j.c, j.writer, i);
    FlushDrafts(j, j', i);
    assert Workers(j');
    hide Workers, Filled;
    Assemble(L, j');
  }

  lemma FinishRefines(L: Layout, j: Joint)
    requires Inv(L, j) && Enabled(L, j, Finish)
    ensures Inv(L, Next(L, j, Finish)) && Matches(L, j, Finish, Next(L, j, Finish))
  {
    hide CP.UsersInv, Unique, Coherent, Permutation, LP.SpaceInv, LP.HistoryInv, LP.DiskInv, StillLogged, PinnedExactly;
    var s, j' := Abs(j), Next(L, j, Finish);
    LP.StepKeepsInv(L, s, LP.Finish);
    OthersTouchNothing(L, s, LP.Finish);
    assert Abs(j') == s.(phase := LP.Running);
    DraftsInRange(j.c);
    FewerDrafts(j, j');
    Assemble(L, j');
  }

  /** read_head reads the header that is on disk. */
  lemma HeadDecodes(L: Layout, j: Joint, p: CP.Pid, i: nat)
    requires Inv(L, j) && j.log.phase == LP.Booted && HasClean(j.c, p, i, L.start)
    ensures GetWord(j.c.bufs[i].data, 0) <= LOGSIZE && Decoded(j.c.bufs[i].data) == Header(L, j.c.disk)
  {
    CleanShows(j.c, p, i, L.start);
    assert j.c.view == j.c.disk;
    hide CP.Inv, LP.SpaceInv, LP.HistoryInv, LP.DiskInv, Workers, Drafts, Filled;
  }

  lemma ReadHeadRefines(L: Layout, j: Joint, p: CP.Pid, i: nat)
    requires Inv(L, j) && Enabled(L, j, ReadHead(p, i))
    ensures Inv(L, Next(L, j, ReadHead(p, i))) && Matches(L, j, ReadHead(p, i), Next(L, j, ReadHead(p, i)))
  {
    hide CP.UsersInv, Unique, Coherent, Permutation, LP.SpaceInv, LP.HistoryInv, LP.DiskInv, StillLogged, PinnedExactly;
    var s, j' := Abs(j), Next(L, j, ReadHead(p, i));
    HeadDecodes(L, j, p, i);
    LP.StepKeepsInv(L, s, LP.ReadHead);
    OthersTouchNothing(L, s, LP.ReadHead);
    assert Abs(j') == s.(lh := Header(L, s.disk), phase := LP.Replaying(0));
    DraftsInRange(j.c);
    FewerDrafts(j, j');
    Assemble(L, j');
  }

  lemma CrashRefines(L: Layout, j: Joint)
    requires Inv(L, j)
    ensures Inv(L, Next(L, j, Crash)) && Matches(L, j, Crash, Next(L, j, Crash))
  {
    hide CP.UsersInv, Unique, Coherent, Permutation, LP.SpaceInv, LP.HistoryInv, LP.DiskInv;
    var s, j' := Abs(j), Next(L, j, Crash);
    LP.StepKeepsInv(L, s, LP.Crash);
    RestartIsInit(j.c);
    assert Abs(j') == LP.Reboot(s);
    assert StillLogged(Abs(j')) == {};
    assert j'.c.draft == map[];
    assert Drafts(j') && Workers(j');
    Assemble(L, j');
  }

  /** Every step keeps the invariant, and is a step of the log protocol or none. */
  lemma StepRefines(L: Layout, j: Joint, step: Step)
    requires Inv(L, j) && Enabled(L, j, step)
    ensures Inv(L, Next(L, j, step)) && Matches(L, j, step, Next(L, j, step))
  {
    hide Next, Enabled, Matches, Workers, Drafts, Filled, CP.UsersInv, Unique, Coherent, Permutation;
    hide LP.SpaceInv, LP.HistoryInv, LP.DiskInv, StillLogged, PinnedExactly;
    match step
    case Touch(t) => TouchRefines(L, j, t);
    case Modify(p, i, x) => ModifyRefines(L, j, p, i, x);
    case LogWrite(p, i) => LogWriteRefines(L, j, p, i);
    case BeginOp(p, op) => BeginRefines(L, j, p, op);
    case EndOp(p) => EndRefines(L, j, p);
    case Prepare(i, from) => PrepareRefines(L, j, i, from);
    case Flush => FlushRefines(L, j);
    case Finish => FinishRefines(L, j);
    case ReadHead(p, i) => ReadHeadRefines(L, j, p, i);
    case Crash => CrashRefines(L, j);
  }

  // ---- Whole runs ----

  ghost predicate Run(L: Layout, j0: Joint, steps: seq<Step>, j: Joint)
    decreases |steps|
  {
    if steps == [] then j == j0
    else Ready(L, j0) && Enabled(L, j0, steps[0]) && Run(L, Next(L, j0, steps[0]), steps[1..], j)
  }

  /** Every run of the two together is a run of the log protocol, over the disk and the contents of the cache. */
  lemma {:induction false} RunRefines(L: Layout, j0: Joint, steps: seq<Step>, j: Joint) returns (logSteps: seq<LP.Step>)
    requires Inv(L, j0) && Run(L, j0, steps, j)
    ensures Inv(L, j) && LP.Run(L, Abs(j0), logSteps, Abs(j))
    decreases |steps|
  {
    logSteps := [];
    if steps != [] {
      hide Inv, Enabled, Next, LP.Enabled, LP.Next, LP.Shape;
      var m := Next(L, j0, steps[0]);
      StepRefines(L, j0, steps[0]);
      var rest := RunRefines(L, m, steps[1..], j);
      var t := LogStep(j0, steps[0]);
      logSteps := if t.Some? then [t.value] + rest else rest;
      if t.Some? {
        assert logSteps[1..] == rest;
      }
    }
  }

  /**
   * Crash atomicity of log.c on bio.c, whatever processes do with the cache meanwhile: at any moment of any run,
   * recovery yields the initial home blocks with the writes of the committed transactions applied in order.
   */
  lemma CachedCrashAtomicity(L: Layout, j0: Joint, steps: seq<Step>, j: Joint) returns (logSteps: seq<LP.Step>)
    requires Init(L, j0) && Run(L, j0, steps, j)
    ensures LP.Run(L, Abs(j0), logSteps, Abs(j)) && LegalDisk(L, j.c.disk)
    ensures forall k :: 0 <= k < |LP.SurvivingWrites(Abs(j))| ==> LP.SurvivingWrites(Abs(j))[k].block < |j0.c.disk|
    ensures SameHome(L, Recovered(L, j.c.disk), LP.ApplyWrites(j0.c.disk, LP.SurvivingWrites(Abs(j))))
  {
    hide Run, Inv, LP.Run, LP.SurvivingWrites, SameHome, Recovered, LegalDisk;
    InitEstablishesInv(L, j0);
    logSteps := RunRefines(L, j0, steps, j);
    LP.CrashAtomicity(L, Abs(j0), logSteps, Abs(j));
  }

  /**
   * And until the machine crashes, whoever has locked a home block and not changed it sees the initial content with
   * the writes of the committed transactions and of the open one applied.
   */
  lemma CachedReads(L: Layout, j0: Joint, steps: seq<Step>, j: Joint, p: CP.Pid, i: nat, b: nat)
    requires Init(L, j0) && Run(L, j0, steps, j) && HasClean(j.c, p, i, b) && L.IsHome(b)
    requires !j.log.phase.Booted? && !j.log.phase.Replaying?
    ensures LP.HistoryInv(L, Abs(j)) && j.log.base == j0.c.disk && b < |j0.c.disk|
    ensures j.c.bufs[i].data ==
            LP.ApplyWrites(LP.ApplyTxns(L, j0.c.disk, j.log.committed), j.log.current.writes)[b]
  {
    hide Run;
    InitEstablishesInv(L, j0);
    var logSteps := RunRefines(L, j0, steps, j);
    LP.RunKeepsInv(L, Abs(j0), logSteps, Abs(j));
    CleanShows(j.c, p, i, b);
    hide CP.Inv, LP.SpaceInv, LP.PhaseInv, PinnedExactly, StillLogged, Workers, Drafts, Filled, LP.Run;
  }

  /**
   * With no operation open and no commit or recovery going on, no buffer is dirty, and the home blocks of the disk
   * are what is committed.
   */
  lemma CachedIdle(L: Layout, j0: Joint, steps: seq<Step>, j: Joint)
    requires Init(L, j0) && Run(L, j0, steps, j) && j.log.phase == LP.Running && j.log.outstanding == 0
    ensures forall i :: 0 <= i < |j.c.bufs| ==> !j.c.bufs[i].dirty
    ensures LP.HistoryInv(L, Abs(j)) && SameHome(L, j.c.disk, LP.ApplyTxns(L, j0.c.disk, j.log.committed))
  {
    hide Run, Inv;
    InitEstablishesInv(L, j0);
    var logSteps := RunRefines(L, j0, steps, j);
    LP.RunKeepsInv(L, Abs(j0), logSteps, Abs(j));
    LD.IdleLogIsEmpty(L, Abs(j0), logSteps, Abs(j));
    LP.QuiescentDiskIsDurable(L, Abs(j));
    hide LP.HistoryInv, LP.DiskInv, LP.SpaceInv, LP.Run, LegalDisk;
    NoneDirty(L, j);
  }

  lemma NoneDirty(L: Layout, j: Joint)
    requires Inv(L, j) && j.log.phase == LP.Running && j.log.lh == []
    ensures forall i :: 0 <= i < |j.c.bufs| ==> !j.c.bufs[i].dirty
  {
    hide CP.Inv, LP.Inv, Workers, Drafts, Filled;
    forall i | 0 <= i < |j.c.bufs|
      ensures !j.c.bufs[i].dirty
    {
      assert !Pinned(j.c.bufs, j.c.bufs[i].blockno);
    }
  }
}
