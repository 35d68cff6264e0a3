/**
 * The buffer cache under any interleaving of any number of processes. The steps are the critical
 * sections of bio.c under bcache.lock, the sleep lock of each buffer, single disk transfers, and what
 * a process may do to a buffer it has locked. The machine refines a flat block store: `view`.
 */
module CacheProtocol {
  import opened Blocks
  import opened Options
  import opened BufferCache

  type Pid = nat

  /** A process between bget and the end of brelse. */
  datatype Use = Waiting | Holding | Leaving

  datatype State = State(
    bufs: seq<Buf>,
    order: seq<nat>,
    disk: seq<Block>,
    users: seq<map<Pid, Use>>,       // per buffer
    draft: map<nat, Block>,          // data a lock holder has stored and neither logged nor written yet
    view: seq<Block>,                // history: content of the last log_write or bwrite of each block
    events: seq<(nat, Block)>        // history: every log_write and bwrite
  )

  datatype Step =
    | Get(p: Pid, b: nat)
    | Acquire(p: Pid, i: nat)
    | Fill(p: Pid, i: nat)
    | Store(p: Pid, i: nat, x: Block)
    | LogWrite(p: Pid, i: nat)
    | Write(p: Pid, i: nat)
    | Release(p: Pid, i: nat)
    | Drop(p: Pid, i: nat)

  ghost predicate Shape(s: State) {
    |s.bufs| == |s.users| == NBUF && Permutation(s.order) && |s.view| == |s.disk|
  }

  /** What is in the memory of buffer `i`. */
  function Data(s: State, i: nat): Block
    requires i < |s.bufs|
  {
    if i in s.draft then s.draft[i] else s.bufs[i].data
  }

  predicate Uses(s: State, p: Pid, i: nat, use: Use) {
    i < |s.users| && p in s.users[i] && s.users[i][p] == use
  }

  ghost predicate Enabled(s: State, step: Step)
    requires Shape(s)
  {
    match step
    case Get(p, b) =>
      && b < |s.disk| && Chosen(s.bufs, s.order, b).Some?
      && p !in s.users[Chosen(s.bufs, s.order, b).value]
    case Acquire(p, i) => Uses(s, p, i, Waiting) && s.bufs[i].holder == None
    case Fill(p, i) => Uses(s, p, i, Holding) && !s.bufs[i].valid && s.bufs[i].blockno < |s.disk|
    case Store(p, i, x) => Uses(s, p, i, Holding) && s.bufs[i].valid
    case LogWrite(p, i) => Uses(s, p, i, Holding) && s.bufs[i].valid && s.bufs[i].blockno < |s.disk|
    case Write(p, i) => Uses(s, p, i, Holding) && s.bufs[i].valid && s.bufs[i].blockno < |s.disk|
    case Release(p, i) => Uses(s, p, i, Holding) && i !in s.draft
    case Drop(p, i) => Uses(s, p, i, Leaving) && s.bufs[i].refcnt > 0
  }

  function Position(order: seq<nat>, i: nat): (k: nat)
    requires i in order
    ensures k < |order| && order[k] == i
  {
    if order[0] == i then 0 else 1 + Position(order[1..], i)
  }

  function SetUse(users: seq<map<Pid, Use>>, i: nat, p: Pid, use: Use): seq<map<Pid, Use>>
    requires i < |users|
  {
    var one: map<Pid, Use> := users[i][p := use];
    users[i := one]
  }

  ghost function Next(s: State, step: Step): State
    requires Shape(s) && Enabled(s, step)
  {
    match step
    case Get(p, b) =>
      var i := Chosen(s.bufs, s.order, b).value;
      s.(bufs := s.bufs[i := Claimed(s.bufs[i], b)], users := SetUse(s.users, i, p, Waiting))
    case Acquire(p, i) =>
      s.(bufs := s.bufs[i := s.bufs[i].(holder := Some(p))], users := SetUse(s.users, i, p, Holding))
    case Fill(p, i) =>
      s.(bufs := s.bufs[i := s.bufs[i].(data := s.disk[s.bufs[i].blockno], valid := true)])
    case Store(p, i, x) => s.(draft := s.draft[i := x])
    case LogWrite(p, i) => Flush(s, i, true)
    case Write(p, i) => Flush(s, i, false).(disk := s.disk[s.bufs[i].blockno := Data(s, i)])
    case Release(p, i) =>
      s.(bufs := s.bufs[i := s.bufs[i].(holder := None)], users := SetUse(s.users, i, p, Leaving))
    case Drop(p, i) =>
      s.(bufs := s.bufs[i := s.bufs[i].(refcnt := s.bufs[i].refcnt - 1)],
         users := s.users[i := s.users[i] - {p}],
         order := if s.bufs[i].refcnt == 1 then ToFront(s.order, Position(s.order, i)) else s.order)
  }

  /** log_write (dirty) or bwrite (clean): what the buffer holds becomes the block's content. */
  function Flush(s: State, i: nat, dirty: bool): State
    requires i < |s.bufs| && s.bufs[i].blockno < |s.view|
  {
    var b, x := s.bufs[i].blockno, Data(s, i);
    s.(bufs := s.bufs[i := s.bufs[i].(data := x, dirty := dirty)], draft := s.draft - {i},
       view := s.view[b := x], events := s.events + [(b, x)])
  }

  /** The reference count and the sleep lock of one buffer agree with the processes using it. */
  ghost predicate UseAgrees(buf: Buf, users: map<Pid, Use>) {
    && buf.refcnt == |users|
    && (forall p: Pid :: p in users && users[p] == Holding <==> buf.holder == Some(p))
  }

  ghost predicate UsersInv(bufs: seq<Buf>, users: seq<map<Pid, Use>>, draft: map<nat, Block>) {
    && |bufs| == |users|
    && (forall i :: 0 <= i < |bufs| ==> UseAgrees(bufs[i], users[i]))
    && (forall i :: i in draft ==> i < |bufs| && bufs[i].holder.Some? && bufs[i].valid)
  }

  ghost predicate Inv(s: State) {
    Shape(s) && Unique(s.bufs) && Coherent(s.bufs, s.disk, s.view) && UsersInv(s.bufs, s.users, s.draft)
  }

  ghost predicate Init(s: State) {
    && Shape(s) && s.view == s.disk && s.draft == map[] && s.events == []
    && (forall i :: 0 <= i < NBUF ==> s.users[i] == map[])
    && (forall i :: 0 <= i < NBUF ==> s.bufs[i] == Buf(false, false, 0, 0, None, 0, s.bufs[i].data))
  }

  lemma InitEstablishesInv(s: State)
    requires Init(s)
    ensures Inv(s)
  {
  }

  // ---- Every step keeps the invariant ----

  lemma ClaimKeepsCoherent(s: State, b: nat)
    requires Inv(s) && b < |s.disk| && Chosen(s.bufs, s.order, b).Some?
    ensures var i := Chosen(s.bufs, s.order, b).value;
            && Unique(s.bufs[i := Claimed(s.bufs[i], b)])
            && Coherent(s.bufs[i := Claimed(s.bufs[i], b)], s.disk, s.view)
            && (s.bufs[i].Holds(b) || s.bufs[i].Recyclable())
  {
    var i := Chosen(s.bufs, s.order, b).value;
    ClaimKeepsUnique(s.bufs, s.order, b);
    assert BufferCoherent(s.bufs[i], s.view);
    UpdateKeepsCoherent(s.bufs, s.disk, s.view, i, Claimed(s.bufs[i], b));
  }

  lemma JoinAgrees(buf: Buf, users: map<Pid, Use>, p: Pid, b: nat)
    requires UseAgrees(buf, users) && p !in users && (buf.Holds(b) || buf.Recyclable())
    ensures UseAgrees(Claimed(buf, b), users[p := Waiting])
  {
    assert users[p := Waiting].Keys == users.Keys + {p};
    assert buf.Recyclable() ==> users == map[];
  }

  lemma GetKeepsInv(s: State, p: Pid, b: nat)
    requires Inv(s) && Enabled(s, Get(p, b))
    ensures Inv(Next(s, Get(p, b)))
  {
    ClaimKeepsCoherent(s, b);
    var i := Chosen(s.bufs, s.order, b).value;
    assert UseAgrees(s.bufs[i], s.users[i]);
    JoinAgrees(s.bufs[i], s.users[i], p, b);
    if i in s.draft && !s.bufs[i].Holds(b) {
      NotHeldIfUnused(s.bufs[i], s.users[i]);
    }
  }

  lemma NotHeldIfUnused(buf: Buf, users: map<Pid, Use>)
    requires UseAgrees(buf, users) && buf.refcnt == 0
    ensures buf.holder == None
  {
    assert users == map[];
    forall p: Pid
      ensures buf.holder != Some(p)
    {
    }
  }

  lemma ChangeUseAgrees(buf: Buf, users: map<Pid, Use>, p: Pid, use: Use)
    requires UseAgrees(buf, users) && p in users && (use == Holding ==> buf.holder == None)
    requires use != Holding ==> buf.holder == Some(p)
    ensures UseAgrees(buf.(holder := if use == Holding then Some(p) else None), users[p := use])
  {
    assert users[p := use].Keys == users.Keys;
  }

  lemma AcquireKeepsInv(s: State, p: Pid, i: nat)
    requires Inv(s) && Enabled(s, Acquire(p, i))
    ensures Inv(Next(s, Acquire(p, i)))
  {
    assert UseAgrees(s.bufs[i], s.users[i]) && BufferCoherent(s.bufs[i], s.view);
    UpdateKeepsCoherent(s.bufs, s.disk, s.view, i, s.bufs[i].(holder := Some(p)));
    ChangeUseAgrees(s.bufs[i], s.users[i], p, Holding);
  }

  lemma ReleaseKeepsInv(s: State, p: Pid, i: nat)
    requires Inv(s) && Enabled(s, Release(p, i))
    ensures Inv(Next(s, Release(p, i)))
  {
    assert UseAgrees(s.bufs[i], s.users[i]) && BufferCoherent(s.bufs[i], s.view);
    UpdateKeepsCoherent(s.bufs, s.disk, s.view, i, s.bufs[i].(holder := None));
    ChangeUseAgrees(s.bufs[i], s.users[i], p, Leaving);
  }

  lemma FillKeepsInv(s: State, p: Pid, i: nat)
    requires Inv(s) && Enabled(s, Fill(p, i))
    ensures Inv(Next(s, Fill(p, i)))
  {
    assert BufferCoherent(s.bufs[i], s.view);
    InvalidIsUnpinned(s.bufs, s.disk, s.view, i);
    UpdateKeepsCoherent(s.bufs, s.disk, s.view, i, s.bufs[i].(data := s.disk[s.bufs[i].blockno], valid := true));
  }

  lemma LogWriteKeepsInv(s: State, step: Step)
    requires Inv(s) && Enabled(s, step) && step.LogWrite?
    ensures Inv(Next(s, step))
  {
    PinKeepsCoherent(s.bufs, s.disk, s.view, step.i, Data(s, step.i));
  }

  lemma WriteKeepsInv(s: State, step: Step)
    requires Inv(s) && Enabled(s, step) && step.Write?
    ensures Inv(Next(s, step))
  {
    WriteKeepsCoherent(s.bufs, s.disk, s.view, step.i, Data(s, step.i));
  }

  lemma LeaveAgrees(buf: Buf, users: map<Pid, Use>, p: Pid)
    requires UseAgrees(buf, users) && p in users && users[p] == Leaving
    ensures buf.refcnt > 0 && UseAgrees(buf.(refcnt := buf.refcnt - 1), users - {p})
  {
    assert (users - {p}).Keys == users.Keys - {p};
    assert |users - {p}| == |(users - {p}).Keys|;
  }

  lemma DropKeepsUsers(s: State, p: Pid, i: nat)
    requires Shape(s) && UsersInv(s.bufs, s.users, s.draft) && Uses(s, p, i, Leaving)
    ensures s.bufs[i].refcnt > 0
    ensures UsersInv(s.bufs[i := s.bufs[i].(refcnt := s.bufs[i].refcnt - 1)], s.users[i := s.users[i] - {p}], s.draft)
  {
    assert UseAgrees(s.bufs[i], s.users[i]);
    LeaveAgrees(s.bufs[i], s.users[i], p);
  }

  lemma DropKeepsInv(s: State, p: Pid, i: nat)
    requires Inv(s) && Enabled(s, Drop(p, i))
    ensures Inv(Next(s, Drop(p, i)))
  {
    DropKeepsUsers(s, p, i);
    assert BufferCoherent(s.bufs[i], s.view);
    UpdateKeepsCoherent(s.bufs, s.disk, s.view, i, s.bufs[i].(refcnt := s.bufs[i].refcnt - 1));
    assert i in s.order;
    ToFrontKeepsPermutation(s.order, Position(s.order, i));
  }

  lemma StepKeepsInv(s: State, step: Step)
    requires Inv(s) && Enabled(s, step)
    ensures Inv(Next(s, step))
  {
    match step
    case Get(p, b) => GetKeepsInv(s, p, b);
    case Acquire(p, i) => AcquireKeepsInv(s, p, i);
    case Fill(p, i) => FillKeepsInv(s, p, i);
    case Store(p, i, x) => assert UseAgrees(s.bufs[i], s.users[i]);
    case Release(p, i) => ReleaseKeepsInv(s, p, i);
    case Drop(p, i) => DropKeepsInv(s, p, i);
    case LogWrite(p, i) => LogWriteKeepsInv(s, step);
    case Write(p, i) => WriteKeepsInv(s, step);
  }

  // ---- Whole runs ----

  ghost predicate Run(s0: State, steps: seq<Step>, s: State)
    decreases |steps|
  {
    if steps == [] then s == s0
    else Shape(s0) && Enabled(s0, steps[0]) && Run(Next(s0, steps[0]), steps[1..], s)
  }

  /** The block store the events describe. */
  function Replay(disk0: seq<Block>, events: seq<(nat, Block)>): (r: seq<Block>)
    ensures |r| == |disk0|
  {
    if events == [] then disk0
    else
      var r, e := Replay(disk0, events[..|events| - 1]), events[|events| - 1];
      if e.0 < |disk0| then r[e.0 := e.1] else r
  }

  lemma StepKeepsReplay(s: State, step: Step, disk0: seq<Block>)
    requires Inv(s) && Enabled(s, step) && |disk0| == |s.disk| && s.view == Replay(disk0, s.events)
    ensures Next(s, step).view == Replay(disk0, Next(s, step).events)
    ensures |Next(s, step).disk| == |s.disk|
  {
    if step.LogWrite? || step.Write? {
      var e := (s.bufs[step.i].blockno, Data(s, step.i));
      assert (s.events + [e])[..|s.events|] == s.events;
    }
  }

  lemma {:induction false} RunKeepsInv(s0: State, steps: seq<Step>, s: State, disk0: seq<Block>)
    requires Inv(s0) && |disk0| == |s0.disk| && s0.view == Replay(disk0, s0.events) && Run(s0, steps, s)
    ensures Inv(s) && s.view == Replay(disk0, s.events)
    decreases |steps|
  {
    if steps != [] {
      StepKeepsInv(s0, steps[0]);
      StepKeepsReplay(s0, steps[0], disk0);
      RunKeepsInv(Next(s0, steps[0]), steps[1..], s, disk0);
    }
  }

  lemma {:induction false} Extend(s0: State, steps: seq<Step>, m: State, step: Step)
    requires Run(s0, steps, m) && Shape(m) && Enabled(m, step)
    ensures Run(s0, steps + [step], Next(m, step))
    decreases |steps|
  {
    if steps == [] {
      assert Run(Next(m, step), [], Next(m, step));
    } else {
      assert (steps + [step])[1..] == steps[1..] + [step];
      Extend(Next(s0, steps[0]), steps[1..], m, step);
    }
  }

  /**
   * Cache refinement. In every run, whoever holds a filled buffer it has not changed sees the content
   * last logged or written for that block; a block nobody has dirty has that content on disk; the list
   * is a permutation of all buffers; no block has two buffers.
   */
  lemma CacheRefinesBlockStore(s0: State, steps: seq<Step>, s: State)
    requires Init(s0) && Run(s0, steps, s)
    ensures Shape(s) && Permutation(s.order) && Unique(s.bufs) && |s.disk| == |Replay(s0.disk, s.events)|
    ensures forall p: Pid, i: nat :: Uses(s, p, i, Holding) && s.bufs[i].valid && i !in s.draft ==>
              s.bufs[i].blockno < |s.disk| && Data(s, i) == Replay(s0.disk, s.events)[s.bufs[i].blockno]
    ensures forall b :: 0 <= b < |s.disk| && !Pinned(s.bufs, b) ==> s.disk[b] == Replay(s0.disk, s.events)[b]
  {
    InitEstablishesInv(s0);
    RunKeepsInv(s0, steps, s, s0.disk);
    forall p: Pid, i: nat | Uses(s, p, i, Holding) && s.bufs[i].valid && i !in s.draft
      ensures s.bufs[i].blockno < |s.disk| && Data(s, i) == s.view[s.bufs[i].blockno]
    {
      assert BufferCoherent(s.bufs[i], s.view);
    }
  }

  /** A block is locked by one process at a time. */
  lemma OneHolderPerBlock(s: State, p: Pid, i: nat, q: Pid, j: nat, b: nat)
    requires Inv(s) && Uses(s, p, i, Holding) && Uses(s, q, j, Holding)
    requires s.bufs[i].blockno == b == s.bufs[j].blockno
    ensures i == j && p == q
  {
    assert UseAgrees(s.bufs[i], s.users[i]) && UseAgrees(s.bufs[j], s.users[j]);
    assert BufferCoherent(s.bufs[i], s.view) && BufferCoherent(s.bufs[j], s.view);
    InUse(s, p, i);
    InUse(s, q, j);
  }

  lemma InUse(s: State, p: Pid, i: nat)
    requires Inv(s) && i < NBUF && p in s.users[i]
    ensures s.bufs[i].refcnt > 0 && s.bufs[i].dev == ROOTDEV && s.bufs[i].blockno < |s.disk|
  {
    assert UseAgrees(s.bufs[i], s.users[i]) && BufferCoherent(s.bufs[i], s.view);
    assert p in s.users[i].Keys;
    assert |s.users[i].Keys| > 0;
  }

  /**
   * A dirty buffer stays put, dirty and on its block, until bwrite; and only bwrite of a block touches the
   * disk, there alone.
   */
  lemma DirtyStaysUntilWritten(s: State, step: Step, i: nat)
    requires Inv(s) && Enabled(s, step) && i < NBUF
    ensures var s' := Next(s, step);
            && (s.bufs[i].dirty && !(step.Write? && step.i == i) ==>
                  s'.bufs[i].dirty && s'.bufs[i].blockno == s.bufs[i].blockno && s'.bufs[i].dev == s.bufs[i].dev)
            && (s'.disk != s.disk ==>
                  step.Write? && Uses(s, step.p, step.i, Holding) &&
                  s'.disk == s.disk[s.bufs[step.i].blockno := Data(s, step.i)])
  {
    if step.Get? {
      ClaimKeepsCoherent(s, step.b);
    }
  }

  // ---- Which buffer is recycled ----

  ghost predicate Can(s: State, steps: seq<Step>)
    decreases |steps|
  {
    steps == [] || (Shape(s) && Enabled(s, steps[0]) && Can(Next(s, steps[0]), steps[1..]))
  }

  lemma {:induction false} RunCan(s0: State, steps: seq<Step>, s: State)
    requires Run(s0, steps, s)
    ensures Can(s0, steps)
    decreases |steps|
  {
    if steps != [] {
      RunCan(Next(s0, steps[0]), steps[1..], s);
    }
  }

  /** The buffer whose last user this step is, if any. */
  ghost function Freed(s: State, step: Step): seq<nat>
    requires Shape(s) && Enabled(s, step)
  {
    if step.Drop? && s.users[step.i].Keys == {step.p} then [step.i] else []
  }

  /** The buffers in the order in which they lost their last user, as often as they did. */
  ghost function Released(s: State, steps: seq<Step>): seq<nat>
    requires Can(s, steps)
    decreases |steps|
  {
    if steps == [] then [] else Freed(s, steps[0]) + Released(Next(s, steps[0]), steps[1..])
  }

  /** a has been released, and c not since. */
  ghost predicate Since(released: seq<nat>, a: nat, c: nat) {
    exists i :: 0 <= i < |released| && released[i] == a && forall j :: i < j < |released| ==> released[j] != c
  }

  /** The list puts a before c exactly when a was released later; those never released stay where they were, behind. */
  ghost predicate ByRelease(order0: seq<nat>, released: seq<nat>, order: seq<nat>, a: nat, c: nat) {
    Ahead(order, a, c) <==> Since(released, a, c) || (a !in released && c !in released && Ahead(order0, a, c))
  }

  lemma SinceFirst(i: nat, rest: seq<nat>, a: nat, c: nat)
    ensures Since([i] + rest, a, c) <==> Since(rest, a, c) || (a == i && c !in rest)
    ensures a in rest && c !in rest ==> Since(rest, a, c)
  {
    var all := [i] + rest;
    if Since(all, a, c) {
      var k :| 0 <= k < |all| && all[k] == a && forall j :: k < j < |all| ==> all[j] != c;
      if k == 0 {
        assert forall j :: 0 <= j < |rest| ==> rest[j] == all[j + 1];
      } else {
        assert rest[k - 1] == a && forall j :: k - 1 < j < |rest| ==> rest[j] == all[j + 1];
      }
    }
    if Since(rest, a, c) {
      var k :| 0 <= k < |rest| && rest[k] == a && forall j :: k < j < |rest| ==> rest[j] != c;
      assert all[k + 1] == a && forall j :: k + 1 < j < |all| ==> all[j] == rest[j - 1];
    }
    if a == i && c !in rest {
      assert all[0] == a && forall j :: 0 < j < |all| ==> all[j] == rest[j - 1];
    }
  }

  lemma AheadOfFirst(order: seq<nat>, a: nat, c: nat)
    requires Permutation(order) && a < NBUF && c < NBUF && a != c
    ensures a == order[0] ==> Ahead(order, a, c)
    ensures c == order[0] ==> !Ahead(order, a, c)
  {
    assert c in order;
  }

  lemma FrontedByRelease(before: seq<nat>, after: seq<nat>, i: nat, rest: seq<nat>, order: seq<nat>, a: nat, c: nat)
    requires Fronted(before, after, i) && Permutation(after) && a < NBUF && c < NBUF && a != c
    requires ByRelease(after, rest, order, a, c)
    ensures ByRelease(before, [i] + rest, order, a, c)
  {
    hide Permutation, Ahead, Since;
    SinceFirst(i, rest, a, c);
    AheadOfFirst(after, a, c);
  }

  /** Only the loss of a last user changes the list. */
  lemma StepMovesFreed(s: State, step: Step)
    requires Inv(s) && Enabled(s, step)
    ensures if Freed(s, step) == [] then Next(s, step).order == s.order
            else step.Drop? && Freed(s, step) == [step.i] && Fronted(s.order, Next(s, step).order, step.i)
    ensures Permutation(Next(s, step).order)
  {
    StepKeepsInv(s, step);
    if step.Drop? {
      var i, users := step.i, s.users[step.i];
      assert UseAgrees(s.bufs[i], users);
      assert |users| == |users.Keys|;
      assert |users.Keys - {step.p}| == |users.Keys| - 1;
      assert i in s.order;
      ToFrontMoves(s.order, Position(s.order, i));
      hide Fronted;
    }
  }

  lemma {:induction false} OrderByRelease(s0: State, steps: seq<Step>, s: State, a: nat, c: nat)
    requires Inv(s0) && Run(s0, steps, s) && a < NBUF && c < NBUF && a != c
    ensures Can(s0, steps) && ByRelease(s0.order, Released(s0, steps), s.order, a, c)
    decreases |steps|
  {
    hide Enabled, Next, Fronted, ByRelease, Inv, Shape, Freed;
    RunCan(s0, steps, s);
    if steps == [] {
      NoneReleased(s.order, a, c);
    } else {
      var m, rest := Next(s0, steps[0]), steps[1..];
      StepKeepsInv(s0, steps[0]);
      StepMovesFreed(s0, steps[0]);
      OrderByRelease(m, rest, s, a, c);
      if Freed(s0, steps[0]) != [] {
        FrontedByRelease(s0.order, m.order, steps[0].i, Released(m, rest), s.order, a, c);
      } else {
        assert [] + Released(m, rest) == Released(m, rest);
      }
    }
  }

  lemma NoneReleased(order: seq<nat>, a: nat, c: nat)
    ensures ByRelease(order, [], order, a, c)
  {
  }

  /**
   * Least recently used. When bget has no buffer for the block, the one it takes is, of all that could be
   * recycled, the one whose last user left longest ago; one that never had a user comes before all others.
   */
  lemma RecyclesLeastRecent(s0: State, steps: seq<Step>, s: State, p: Pid, b: nat, c: nat)
    requires Init(s0) && Run(s0, steps, s) && Shape(s) && Enabled(s, Get(p, b))
    requires (forall i :: 0 <= i < NBUF ==> !s.bufs[i].Holds(b)) && c < NBUF && s.bufs[c].Recyclable()
    ensures Can(s0, steps)
    ensures var v := Chosen(s.bufs, s.order, b).value; var released := Released(s0, steps);
            && s.bufs[v].Recyclable() && Next(s, Get(p, b)).bufs[v].Holds(b)
            && (v != c ==> Since(released, c, v) || (c !in released && v !in released && Ahead(s0.order, c, v)))
  {
    InitEstablishesInv(s0);
    RunCan(s0, steps, s);
    var v := Chosen(s.bufs, s.order, b).value;
    if v != c {
      OrderByRelease(s0, steps, s, c, v);
      assert c in s.order;
    }
  }
}
