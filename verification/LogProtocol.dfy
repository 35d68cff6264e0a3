/**
 * The logging protocol of log.c as a state machine. Every step is one critical section or one
 * single-block disk write; any number of file-system operations interleave, and a crash may come
 * between any two steps, also inside a commit and inside recovery itself.
 */
module LogProtocol {
  import opened Blocks
  import opened RedoLog
  import opened Sequences

  type Op = nat

  datatype Write = Write(op: Op, block: nat, data: Block)

  /** The operations that share one commit, and their writes in order. */
  datatype Txn = Txn(ops: set<Op>, writes: seq<Write>)

  const EmptyTxn := Txn({}, [])

  /** Where the log code stands. `Running` is `committing == 0`. */
  datatype Phase =
    | Running
    | CopyToLog(tail: nat)       // write_log, then the committing write_head
    | Installing(tail: nat)      // install_trans, then the clearing write_head
    | Committed                  // commit() has returned, committing still 1
    | Booted                     // after a crash, before read_head
    | Replaying(tail: nat)       // recovery's install_trans, then its write_head

  datatype State = State(
    disk: Disk,
    view: Disk,                  // block contents as read through the buffer cache
    lh: seq<nat>,                // lh.block[0..lh.n]
    outstanding: nat,
    phase: Phase,
    // history
    base: Disk,                  // home contents before the first transaction
    active: map<Op, nat>,        // operations between begin_op and end_op, and the blocks each has added to lh
    begun: set<Op>,
    issued: seq<Write>,          // every log_write ever made
    current: Txn,                // what the next commit would make durable
    committed: seq<Txn>          // transactions whose header write reached the disk
  )

  datatype Step =
    | BeginOp(op: Op)
    | LogWrite(op: Op, block: nat, data: Block)
    | EndOp(op: Op)
    | Advance                    // the next disk write of commit() or recover_from_log()
    | Finish                     // end_op's committing = 0
    | ReadHead
    | Crash

  // ---- The home contents that a history of writes describes ----

  function ApplyWrites(d: Disk, ws: seq<Write>): (r: Disk)
    requires forall i :: 0 <= i < |ws| ==> ws[i].block < |d|
    ensures |r| == |d|
  {
    if ws == [] then d
    else ApplyWrites(d, ws[..|ws| - 1])[ws[|ws| - 1].block := ws[|ws| - 1].data]
  }

  ghost predicate TxnFits(L: Layout, t: Txn) {
    forall i :: 0 <= i < |t.writes| ==> L.IsHome(t.writes[i].block) && t.writes[i].op in t.ops
  }

  function ApplyTxns(L: Layout, d: Disk, ts: seq<Txn>): (r: Disk)
    requires |d| == L.size && forall i :: 0 <= i < |ts| ==> TxnFits(L, ts[i])
    ensures |r| == |d|
  {
    if ts == [] then d
    else
      assert TxnFits(L, ts[|ts| - 1]);
      ApplyWrites(ApplyTxns(L, d, ts[..|ts| - 1]), ts[|ts| - 1].writes)
  }

  function WritesOf(op: Op, ws: seq<Write>): seq<Write> {
    if ws == [] then []
    else WritesOf(op, ws[..|ws| - 1]) + if ws[|ws| - 1].op == op then [ws[|ws| - 1]] else []
  }

  // ---- The steps ----

  predicate Enabled(L: Layout, s: State, step: Step)
    requires L.Fits(s.disk)
  {
    match step
    case BeginOp(op) =>
      && s.phase == Running && op !in s.begun
      && |s.lh| + (s.outstanding + 1) * MAXOPBLOCKS <= LOGSIZE
    case LogWrite(op, b, data) =>
      && s.phase == Running && op in s.active && L.IsHome(b)
      && !LogWritePanics(L, s)
      && (b in s.lh || s.active[op] < MAXOPBLOCKS)
    case EndOp(op) => s.phase == Running && op in s.active && s.outstanding > 0
    case Advance => s.phase.CopyToLog? || s.phase.Installing? || s.phase.Replaying?
    case Finish => s.phase == Committed
    case ReadHead => s.phase == Booted
    case Crash => true
  }

  /** The guard of log_write: "too big a transaction". */
  predicate LogWritePanics(L: Layout, s: State) {
    |s.lh| >= LOGSIZE || |s.lh| >= L.nlog - 1
  }

  ghost predicate Shape(L: Layout, s: State) {
    && LegalDisk(L, s.disk) && |s.view| == L.size
    && LegalHeader(L, s.lh)
    && (s.phase.CopyToLog? || s.phase.Installing? || s.phase.Replaying? ==> s.phase.tail <= |s.lh|)
  }

  function Next(L: Layout, s: State, step: Step): State
    requires Shape(L, s) && Enabled(L, s, step)
  {
    match step
    case BeginOp(op) => Begin(s, op)
    case LogWrite(op, b, data) => Log(s, op, b, data)
    case EndOp(op) => End(s, op)
    case Advance => DiskWrite(L, s)
    case Finish => s.(phase := Running)
    case ReadHead => s.(lh := Header(L, s.disk), phase := Replaying(0))
    case Crash => Reboot(s)
  }

  function Begin(s: State, op: Op): State {
    s.(outstanding := s.outstanding + 1, active := s.active[op := 0], begun := s.begun + {op},
       current := s.current.(ops := s.current.ops + {op}))
  }

  /** log_write under log.lock: absorb a block already in the header, else append it. */
  function Log(s: State, op: Op, b: nat, data: Block): State
    requires b < |s.view| && op in s.active
  {
    s.(view := s.view[b := data],
       lh := if b in s.lh then s.lh else s.lh + [b],
       active := if b in s.lh then s.active else s.active[op := s.active[op] + 1],
       issued := s.issued + [Write(op, b, data)],
       current := s.current.(writes := s.current.writes + [Write(op, b, data)]))
  }

  /** end_op: the last operation out starts the commit, which does nothing for an empty log. */
  function End(s: State, op: Op): State
    requires s.outstanding > 0
  {
    s.(outstanding := s.outstanding - 1, active := s.active - {op},
       phase := if s.outstanding > 1 then Running else if |s.lh| > 0 then CopyToLog(0) else Committed)
  }

  /** Only the disk survives. */
  function Reboot(s: State): State {
    s.(view := s.disk, lh := [], outstanding := 0, phase := Booted, active := map[], current := EmptyTxn)
  }

  /** One bwrite of commit() or recover_from_log(). */
  function DiskWrite(L: Layout, s: State): State
    requires Shape(L, s) && Enabled(L, s, Advance)
  {
    var head := EncodeHeader(s.disk[L.start], s.lh);
    var cleared := EncodeHeader(s.disk[L.start], []);
    if s.phase.CopyToLog? && s.phase.tail < |s.lh| then
      var slot, x := L.start + 1 + s.phase.tail, s.view[s.lh[s.phase.tail]];
      s.(disk := s.disk[slot := x], view := s.view[slot := x], phase := CopyToLog(s.phase.tail + 1))
    else if s.phase.CopyToLog? then
      s.(disk := s.disk[L.start := head], view := s.view[L.start := head], phase := Installing(0),
         current := EmptyTxn, committed := s.committed + [s.current])
    else if s.phase.tail < |s.lh| then
      s.(disk := InstallOne(L, s.disk, s.lh, s.phase.tail),
         view := s.view[s.lh[s.phase.tail] := Slot(L, s.disk, s.phase.tail)],
         phase := if s.phase.Installing? then Installing(s.phase.tail + 1) else Replaying(s.phase.tail + 1))
    else
      s.(disk := s.disk[L.start := cleared], view := s.view[L.start := cleared], lh := [],
         phase := if s.phase.Installing? then Committed else Running)
  }

  // ---- The invariant ----

  /** Units of log space reserved by active operations and not used yet. */
  ghost function Unused(m: map<Op, nat>): int {
    if m == map[] then 0
    else var op :| op in m; MAXOPBLOCKS - m[op] + Unused(m - {op})
  }

  lemma {:induction false} UnusedRemove(m: map<Op, nat>, op: Op)
    requires op in m
    ensures Unused(m) == MAXOPBLOCKS - m[op] + Unused(m - {op})
    decreases |m|
  {
    var pick :| pick in m && Unused(m) == MAXOPBLOCKS - m[pick] + Unused(m - {pick});
    if pick != op {
      UnusedRemove(m - {pick}, op);
      UnusedRemove(m - {op}, pick);
      assert m - {pick} - {op} == m - {op} - {pick};
    }
  }

  lemma {:induction false} UnusedBound(m: map<Op, nat>)
    requires forall op :: op in m ==> m[op] <= MAXOPBLOCKS
    ensures 0 <= Unused(m) <= MAXOPBLOCKS * |m|
    decreases |m|
  {
    if m != map[] {
      var op :| op in m;
      UnusedRemove(m, op);
      UnusedBound(m - {op});
      assert (m - {op}).Keys == m.Keys - {op};
    }
  }

  lemma UnusedUpdate(m: map<Op, nat>, op: Op, k: nat)
    ensures Unused(m[op := k]) == MAXOPBLOCKS - k + Unused(m - {op})
  {
    UnusedRemove(m[op := k], op);
    assert m[op := k] - {op} == m - {op};
  }

  /** Group commit: who is in which transaction, and that log space never runs out. */
  ghost predicate SpaceInv(L: Layout, s: State) {
    && s.outstanding == |s.active|
    && (s.active != map[] ==> s.phase == Running)
    && (forall op :: op in s.active ==> s.active[op] <= MAXOPBLOCKS)
    && Distinct(s.lh)
    && |s.lh| + Unused(s.active) <= LOGSIZE
  }

  /** Every operation that was begun is in at most one transaction, with all of its writes. */
  ghost predicate HistoryInv(L: Layout, s: State) {
    && |s.base| == L.size
    && s.active.Keys <= s.current.ops <= s.begun
    && TxnFits(L, s.current)
    && (forall i :: 0 <= i < |s.committed| ==>
          TxnFits(L, s.committed[i]) && s.committed[i].ops <= s.begun && s.committed[i].ops !! s.current.ops)
    && (forall i, j :: 0 <= i < j < |s.committed| ==> s.committed[i].ops !! s.committed[j].ops)
    && (forall op :: op in s.current.ops ==> WritesOf(op, s.issued) == WritesOf(op, s.current.writes))
    && (forall i, op :: 0 <= i < |s.committed| && op in s.committed[i].ops ==>
          WritesOf(op, s.issued) == WritesOf(op, s.committed[i].writes))
    && (forall i :: 0 <= i < |s.issued| ==> s.issued[i].op in s.begun)
  }

  /** What the disk would recover to, and what the cache shows. */
  ghost predicate DurableInv(L: Layout, s: State)
    requires Shape(L, s) && HistoryInv(L, s)
  {
    var durable := ApplyTxns(L, s.base, s.committed);
    && SameHome(L, Recovered(L, s.disk), durable)
    && Distinct(Header(L, s.disk))
    && (!s.phase.Booted? && !s.phase.Replaying? ==>
          SameHome(L, s.view, ApplyWrites(durable, s.current.writes)))
  }

  /** How far each phase has got. */
  ghost predicate PhaseInv(L: Layout, s: State)
    requires Shape(L, s)
  {
    && (!s.phase.Booted? && !s.phase.Replaying? ==>
          forall b :: L.IsHome(b) && b !in s.lh ==> s.view[b] == s.disk[b])
    && match s.phase {
         case Running => HeaderCount(L, s.disk) == 0
         case CopyToLog(tail) =>
           && HeaderCount(L, s.disk) == 0
           && (forall i :: 0 <= i < tail ==> Slot(L, s.disk, i) == s.view[s.lh[i]])
         case Installing(tail) =>
           && Header(L, s.disk) == s.lh
           && s.current.writes == []
           && (forall i :: 0 <= i < |s.lh| ==> Slot(L, s.disk, i) == s.view[s.lh[i]])
           && (forall i :: 0 <= i < tail ==> s.disk[s.lh[i]] == s.view[s.lh[i]])
         case Committed => HeaderCount(L, s.disk) == 0 && s.lh == []
         case Booted => s.current == EmptyTxn && s.view == s.disk
         case Replaying(tail) =>
           && Header(L, s.disk) == s.lh
           && s.current == EmptyTxn
           && (forall b :: L.IsHome(b) ==> s.view[b] == s.disk[b])
           && (forall i :: 0 <= i < tail ==> s.disk[s.lh[i]] == Slot(L, s.disk, i))
       }
  }

  ghost predicate DiskInv(L: Layout, s: State)
    requires Shape(L, s) && HistoryInv(L, s)
  {
    DurableInv(L, s) && PhaseInv(L, s)
  }

  ghost predicate Inv(L: Layout, s: State) {
    Shape(L, s) && SpaceInv(L, s) && HistoryInv(L, s) && DiskInv(L, s)
  }

  ghost predicate Init(L: Layout, s: State) {
    && LegalDisk(L, s.disk) && HeaderCount(L, s.disk) == 0
    && s == State(s.disk, s.disk, [], 0, Running, s.disk, map[], {}, [], EmptyTxn, [])
  }

  lemma InitEstablishesInv(L: Layout, s: State)
    requires Init(L, s) && L.nlog >= 1
    ensures Inv(L, s)
  {
    EmptyLogRecovers(L, s.disk);
  }

  // ---- Every step keeps the invariant ----

  lemma AppendWrite(d: Disk, ws: seq<Write>, w: Write)
    requires w.block < |d| && forall i :: 0 <= i < |ws| ==> ws[i].block < |d|
    ensures ApplyWrites(d, ws + [w]) == ApplyWrites(d, ws)[w.block := w.data]
    ensures forall op :: WritesOf(op, ws + [w]) == WritesOf(op, ws) + if w.op == op then [w] else []
  {
    assert (ws + [w])[..|ws|] == ws;
  }

  lemma BeginKeepsSpace(L: Layout, s: State, op: Op)
    requires SpaceInv(L, s) && s.phase == Running && op !in s.active
    requires |s.lh| + (s.outstanding + 1) * MAXOPBLOCKS <= LOGSIZE
    ensures SpaceInv(L, Begin(s, op))
  {
    assert s.active - {op} == s.active;
    UnusedUpdate(s.active, op, 0);
    UnusedBound(s.active);
    assert s.active[op := 0].Keys == s.active.Keys + {op};
  }

  lemma LogKeepsSpace(L: Layout, s: State, op: Op, b: nat, data: Block)
    requires SpaceInv(L, s) && s.phase == Running && op in s.active && b < |s.view|
    requires b in s.lh || s.active[op] < MAXOPBLOCKS
    ensures SpaceInv(L, Log(s, op, b, data))
  {
    if b !in s.lh {
      UnusedRemove(s.active, op);
      UnusedUpdate(s.active, op, s.active[op] + 1);
      assert s.active[op := s.active[op] + 1].Keys == s.active.Keys;
    }
  }

  lemma EndKeepsSpace(L: Layout, s: State, op: Op)
    requires SpaceInv(L, s) && s.phase == Running && op in s.active
    ensures s.outstanding > 0 && SpaceInv(L, End(s, op))
  {
    UnusedRemove(s.active, op);
    assert (s.active - {op}).Keys == s.active.Keys - {op};
    assert |(s.active - {op}).Keys| == |s.active - {op}|;
  }

  lemma StepKeepsSpace(L: Layout, s: State, step: Step)
    requires Inv(L, s) && Enabled(L, s, step)
    ensures SpaceInv(L, Next(L, s, step))
  {
    match step
    case BeginOp(op) => BeginKeepsSpace(L, s, op);
    case LogWrite(op, b, data) => LogKeepsSpace(L, s, op, b, data);
    case EndOp(op) => EndKeepsSpace(L, s, op);
    case _ =>
  }

  lemma {:induction false} NoWritesBeforeBegin(ws: seq<Write>, op: Op, ops: set<Op>)
    requires op !in ops && forall i :: 0 <= i < |ws| ==> ws[i].op in ops
    ensures WritesOf(op, ws) == []
  {
    if ws != [] {
      NoWritesBeforeBegin(ws[..|ws| - 1], op, ops);
    }
  }

  lemma BeginKeepsHistory(L: Layout, s: State, op: Op)
    requires HistoryInv(L, s) && op !in s.begun
    ensures HistoryInv(L, Begin(s, op))
  {
    NoWritesBeforeBegin(s.issued, op, s.begun);
    NoWritesBeforeBegin(s.current.writes, op, s.current.ops);
  }

  lemma LogKeepsHistory(L: Layout, s: State, op: Op, b: nat, data: Block)
    requires HistoryInv(L, s) && |s.view| == L.size && op in s.active && L.IsHome(b)
    ensures HistoryInv(L, Log(s, op, b, data))
  {
    var w := Write(op, b, data);
    assert (s.issued + [w])[..|s.issued|] == s.issued;
    assert (s.current.writes + [w])[..|s.current.writes|] == s.current.writes;
  }

  lemma StepKeepsHistory(L: Layout, s: State, step: Step)
    requires Shape(L, s) && HistoryInv(L, s) && Enabled(L, s, step)
    requires s.phase.CopyToLog? ==> s.active == map[]
    ensures HistoryInv(L, Next(L, s, step))
  {
    match step
    case BeginOp(op) => BeginKeepsHistory(L, s, op);
    case LogWrite(op, b, data) => LogKeepsHistory(L, s, op, b, data);
    case _ =>
  }

  lemma LogKeepsDisk(L: Layout, s: State, op: Op, b: nat, data: Block)
    requires Shape(L, s) && HistoryInv(L, s) && DiskInv(L, s) && s.phase == Running
    requires op in s.active && L.IsHome(b) && !LogWritePanics(L, s)
    ensures Shape(L, Log(s, op, b, data))
    ensures HistoryInv(L, Log(s, op, b, data)) && DiskInv(L, Log(s, op, b, data))
  {
    LogKeepsHistory(L, s, op, b, data);
    AppendWrite(ApplyTxns(L, s.base, s.committed), s.current.writes, Write(op, b, data));
  }

  lemma AdvanceKeepsDisk(L: Layout, s: State)
    requires Inv(L, s) && Enabled(L, s, Advance)
    requires HistoryInv(L, DiskWrite(L, s))
    ensures Shape(L, DiskWrite(L, s)) && DiskInv(L, DiskWrite(L, s))
  {
    if s.phase.CopyToLog? && s.phase.tail < |s.lh| {
      CopyKeepsDisk(L, s);
    } else if s.phase.CopyToLog? {
      HeaderWriteKeepsDisk(L, s);
    } else if s.phase.tail == |s.lh| {
      ClearKeepsDisk(L, s);
    } else {
      InstallKeepsDisk(L, s);
    }
  }

  lemma StepKeepsDisk(L: Layout, s: State, step: Step)
    requires Inv(L, s) && Enabled(L, s, step)
    requires HistoryInv(L, Next(L, s, step))
    ensures Shape(L, Next(L, s, step)) && DiskInv(L, Next(L, s, step))
  {
    match step
    case LogWrite(op, b, data) => LogKeepsDisk(L, s, op, b, data);
    case Advance => AdvanceKeepsDisk(L, s);
    case _ =>
  }

  lemma CopyKeepsPhase(L: Layout, s: State)
    requires Shape(L, s) && PhaseInv(L, s) && s.phase.CopyToLog? && s.phase.tail < |s.lh|
    ensures Shape(L, DiskWrite(L, s)) && PhaseInv(L, DiskWrite(L, s))
  {
    LogBlockWriteInvisible(L, s.disk, s.phase.tail, s.view[s.lh[s.phase.tail]]);
  }

  lemma CopyKeepsDisk(L: Layout, s: State)
    requires Shape(L, s) && HistoryInv(L, s) && DiskInv(L, s)
    requires s.phase.CopyToLog? && s.phase.tail < |s.lh|
    ensures Shape(L, DiskWrite(L, s)) && HistoryInv(L, DiskWrite(L, s)) && DiskInv(L, DiskWrite(L, s))
  {
    CopyKeepsPhase(L, s);
    LogBlockWriteInvisible(L, s.disk, s.phase.tail, s.view[s.lh[s.phase.tail]]);
  }

  lemma HeaderWriteKeepsPhase(L: Layout, s: State)
    requires Shape(L, s) && PhaseInv(L, s) && s.phase == CopyToLog(|s.lh|)
    ensures Shape(L, DiskWrite(L, s)) && PhaseInv(L, DiskWrite(L, s))
    ensures Header(L, DiskWrite(L, s).disk) == s.lh && SameHome(L, DiskWrite(L, s).view, s.view)
    ensures SameHome(L, Recovered(L, DiskWrite(L, s).disk), s.view)
  {
    HeaderWriteCommits(L, s.disk, s.lh, s.view);
  }

  /** The commit point: `current` becomes durable in one block write. */
  lemma HeaderWriteKeepsDisk(L: Layout, s: State)
    requires Shape(L, s) && HistoryInv(L, s) && DiskInv(L, s) && Distinct(s.lh)
    requires s.phase == CopyToLog(|s.lh|) && HistoryInv(L, DiskWrite(L, s))
    ensures Shape(L, DiskWrite(L, s)) && DiskInv(L, DiskWrite(L, s))
  {
    HeaderWriteKeepsPhase(L, s);
    assert (s.committed + [s.current])[..|s.committed|] == s.committed;
  }

  lemma InstallKeepsPhase(L: Layout, s: State)
    requires Shape(L, s) && PhaseInv(L, s) && Distinct(s.lh)
    requires (s.phase.Installing? || s.phase.Replaying?) && s.phase.tail < |s.lh|
    ensures Shape(L, DiskWrite(L, s)) && PhaseInv(L, DiskWrite(L, s))
    ensures s.phase.Installing? ==> DiskWrite(L, s).view == s.view
  {
    InstallOneAt(L, s.disk, s.lh, s.phase.tail);
    hide LegalDisk, Header, HeaderCount;
  }

  lemma InstallKeepsDisk(L: Layout, s: State)
    requires Shape(L, s) && HistoryInv(L, s) && DiskInv(L, s) && Distinct(s.lh)
    requires (s.phase.Installing? || s.phase.Replaying?) && s.phase.tail < |s.lh|
    ensures Shape(L, DiskWrite(L, s)) && HistoryInv(L, DiskWrite(L, s)) && DiskInv(L, DiskWrite(L, s))
  {
    InstallKeepsPhase(L, s);
    InstallInvisible(L, s.disk, s.phase.tail);
  }

  /** Once every block is installed, recovery would change nothing. */
  lemma InstalledIsRecovered(L: Layout, s: State)
    requires Shape(L, s) && PhaseInv(L, s) && (s.phase.Installing? || s.phase.Replaying?) && s.phase.tail == |s.lh|
    ensures SameHome(L, Recovered(L, s.disk), s.disk)
  {
    forall b | L.IsHome(b)
      ensures s.disk[b] == Recovered(L, s.disk)[b]
    {
      RecoveredAt(L, s.disk, b);
    }
  }

  lemma ClearKeepsDisk(L: Layout, s: State)
    requires Inv(L, s) && (s.phase.Installing? || s.phase.Replaying?) && s.phase.tail == |s.lh|
    ensures Shape(L, DiskWrite(L, s)) && HistoryInv(L, DiskWrite(L, s)) && DiskInv(L, DiskWrite(L, s))
  {
    hide ApplyTxns, WritesOf, Recovered;
    InstalledIsRecovered(L, s);
    HeaderRoundTrip(L, s.disk, []);
    EmptyLogRecovers(L, DiskWrite(L, s).disk);
  }

  lemma StepKeepsInv(L: Layout, s: State, step: Step)
    requires Inv(L, s) && Enabled(L, s, step)
    ensures Inv(L, Next(L, s, step)) && Next(L, s, step).base == s.base
  {
    StepKeepsHistory(L, s, step);
    StepKeepsDisk(L, s, step);
    StepKeepsSpace(L, s, step);
  }

  // ---- Whole runs ----

  /** `steps` leads from `s0` to `s`. */
  ghost predicate Run(L: Layout, s0: State, steps: seq<Step>, s: State)
    decreases |steps|
  {
    if steps == [] then s == s0
    else Shape(L, s0) && Enabled(L, s0, steps[0]) && Run(L, Next(L, s0, steps[0]), steps[1..], s)
  }

  lemma {:induction false} RunKeepsInv(L: Layout, s0: State, steps: seq<Step>, s: State)
    requires Inv(L, s0) && Run(L, s0, steps, s)
    ensures Inv(L, s) && s.base == s0.base
    decreases |steps|
  {
    if steps != [] {
      StepKeepsInv(L, s0, steps[0]);
      RunKeepsInv(L, Next(L, s0, steps[0]), steps[1..], s);
    }
  }

  function AllWrites(ts: seq<Txn>): seq<Write> {
    if ts == [] then [] else AllWrites(ts[..|ts| - 1]) + ts[|ts| - 1].writes
  }

  lemma {:induction false} WritesOfConcat(op: Op, ws: seq<Write>, vs: seq<Write>)
    ensures WritesOf(op, ws + vs) == WritesOf(op, ws) + WritesOf(op, vs)
    decreases |vs|
  {
    if vs == [] {
      assert ws + vs == ws;
    } else {
      WritesOfConcat(op, ws, vs[..|vs| - 1]);
      assert (ws + vs)[..|ws + vs| - 1] == ws + vs[..|vs| - 1];
    }
  }

  lemma {:induction false} WritesOfOneTxn(op: Op, ts: seq<Txn>, i: nat)
    requires i < |ts| && op in ts[i].ops
    requires forall j, k :: 0 <= j < k < |ts| ==> ts[j].ops !! ts[k].ops
    requires forall j, k :: 0 <= j < |ts| && 0 <= k < |ts[j].writes| ==> ts[j].writes[k].op in ts[j].ops
    ensures WritesOf(op, AllWrites(ts)) == WritesOf(op, ts[i].writes)
    decreases |ts|
  {
    var n := |ts| - 1;
    WritesOfConcat(op, AllWrites(ts[..n]), ts[n].writes);
    if i < n {
      WritesOfOneTxn(op, ts[..n], i);
      NoWritesBeforeBegin(ts[n].writes, op, ts[n].ops);
    } else {
      WritesOfNoTxn(op, ts[..n]);
    }
  }

  lemma {:induction false} WritesOfNoTxn(op: Op, ts: seq<Txn>)
    requires forall j :: 0 <= j < |ts| ==> op !in ts[j].ops
    requires forall j, k :: 0 <= j < |ts| && 0 <= k < |ts[j].writes| ==> ts[j].writes[k].op in ts[j].ops
    ensures WritesOf(op, AllWrites(ts)) == []
    decreases |ts|
  {
    if ts != [] {
      var n := |ts| - 1;
      WritesOfConcat(op, AllWrites(ts[..n]), ts[n].writes);
      WritesOfNoTxn(op, ts[..n]);
      NoWritesBeforeBegin(ts[n].writes, op, ts[n].ops);
    }
  }

  lemma {:induction false} ApplyConcat(d: Disk, ws: seq<Write>, vs: seq<Write>)
    requires forall i :: 0 <= i < |ws| ==> ws[i].block < |d|
    requires forall i :: 0 <= i < |vs| ==> vs[i].block < |d|
    ensures ApplyWrites(d, ws + vs) == ApplyWrites(ApplyWrites(d, ws), vs)
    decreases |vs|
  {
    if vs == [] {
      assert ws + vs == ws;
    } else {
      ApplyConcat(d, ws, vs[..|vs| - 1]);
      assert (ws + vs)[..|ws + vs| - 1] == ws + vs[..|vs| - 1];
    }
  }

  lemma {:induction false} TxnsAreTheirWrites(L: Layout, d: Disk, ts: seq<Txn>)
    requires |d| == L.size && forall i :: 0 <= i < |ts| ==> TxnFits(L, ts[i])
    ensures forall i :: 0 <= i < |AllWrites(ts)| ==> AllWrites(ts)[i].block < |d|
    ensures ApplyTxns(L, d, ts) == ApplyWrites(d, AllWrites(ts))
    decreases |ts|
  {
    if ts != [] {
      TxnsAreTheirWrites(L, d, ts[..|ts| - 1]);
      assert TxnFits(L, ts[|ts| - 1]);
      ApplyConcat(d, AllWrites(ts[..|ts| - 1]), ts[|ts| - 1].writes);
    }
  }

  /** The writes a recovery would show, whatever the moment of the crash. */
  ghost function SurvivingWrites(s: State): seq<Write> {
    AllWrites(s.committed)
  }

  /**
   * Crash atomicity. At every moment of every run, with any number of crashes before it, recovery
   * yields the initial home blocks with the writes of the committed transactions applied in order.
   */
  lemma CrashAtomicity(L: Layout, s0: State, steps: seq<Step>, s: State)
    requires Init(L, s0) && Run(L, s0, steps, s)
    ensures LegalDisk(L, s.disk)
    ensures forall i :: 0 <= i < |SurvivingWrites(s)| ==> SurvivingWrites(s)[i].block < |s0.disk|
    ensures SameHome(L, Recovered(L, s.disk), ApplyWrites(s0.disk, SurvivingWrites(s)))
  {
    InitEstablishesInv(L, s0);
    RunKeepsInv(L, s0, steps, s);
    TxnsAreTheirWrites(L, s.base, s.committed);
  }

  ghost predicate InSome(ts: seq<Txn>, op: Op) {
    exists i :: 0 <= i < |ts| && op in ts[i].ops
  }

  lemma SurvivesWhole(L: Layout, s: State, op: Op)
    requires HistoryInv(L, s)
    ensures WritesOf(op, SurvivingWrites(s)) == if InSome(s.committed, op) then WritesOf(op, s.issued) else []
  {
    forall j, k | 0 <= j < |s.committed| && 0 <= k < |s.committed[j].writes|
      ensures s.committed[j].writes[k].op in s.committed[j].ops
    {
      assert TxnFits(L, s.committed[j]);
    }
    if i :| 0 <= i < |s.committed| && op in s.committed[i].ops {
      WritesOfOneTxn(op, s.committed, i);
    } else {
      WritesOfNoTxn(op, s.committed);
    }
  }

  /** The log_writes of a run. */
  function Logged(steps: seq<Step>): seq<Write> {
    if steps == [] then []
    else (if steps[0].LogWrite? then [Write(steps[0].op, steps[0].block, steps[0].data)] else []) + Logged(steps[1..])
  }

  lemma StepIssues(L: Layout, s: State, step: Step)
    requires Shape(L, s) && Enabled(L, s, step)
    ensures Next(L, s, step).issued == s.issued + Logged([step])
  {
    hide Shape, Enabled, InstallOne, EncodeHeader;
    assert [step][1..] == [] && s.issued + [] == s.issued;
  }

  lemma {:induction false} IssuedAreLogged(L: Layout, s0: State, steps: seq<Step>, s: State)
    requires Run(L, s0, steps, s)
    ensures s.issued == s0.issued + Logged(steps)
    decreases |steps|
  {
    hide Next, Enabled, Shape;
    if steps != [] {
      var w, rest := Logged([steps[0]]), Logged(steps[1..]);
      StepIssues(L, s0, steps[0]);
      IssuedAreLogged(L, Next(L, s0, steps[0]), steps[1..], s);
      assert s0.issued + w + rest == s0.issued + (w + rest);
      assert [steps[0]][1..] == [];
    }
  }

  /** Each begin_op/end_op operation survives a crash with all the writes it made, or with none. */
  lemma OperationAllOrNothing(L: Layout, s0: State, steps: seq<Step>, s: State, op: Op)
    requires Init(L, s0) && Run(L, s0, steps, s)
    ensures WritesOf(op, SurvivingWrites(s)) == if InSome(s.committed, op) then WritesOf(op, Logged(steps)) else []
    ensures op in s.active ==> WritesOf(op, SurvivingWrites(s)) == []
  {
    InitEstablishesInv(L, s0);
    RunKeepsInv(L, s0, steps, s);
    SurvivesWhole(L, s, op);
    IssuedAreLogged(L, s0, steps, s);
    assert [] + Logged(steps) == Logged(steps);
  }

  /** What is committed stays committed, and only the header write of a full log adds to it. */
  lemma CommittedOnlyGrows(L: Layout, s: State, step: Step)
    requires Inv(L, s) && Enabled(L, s, step)
    ensures Next(L, s, step).committed ==
            if step == Advance && s.phase == CopyToLog(|s.lh|) then s.committed + [s.current] else s.committed
    ensures step == Advance && s.phase == CopyToLog(|s.lh|) ==> s.active == map[]
  {
    StepKeepsInv(L, s, step);
  }

  lemma InstallsDurable(L: Layout, s: State)
    requires Shape(L, s) && HistoryInv(L, s) && DiskInv(L, s)
    requires (s.phase.Installing? || s.phase.Replaying?) && s.phase.tail < |s.lh|
    ensures Slot(L, s.disk, s.phase.tail) == ApplyTxns(L, s.base, s.committed)[s.lh[s.phase.tail]]
  {
    assert Header(L, s.disk) == s.lh;
    RecoveredSlot(L, s.disk, s.phase.tail);
    hide HistoryInv, TxnFits, PhaseInv, LegalDisk, Recovered, Header, Slot;
  }

  /** No uncommitted data reaches a home block: a home block only ever changes to its durable content. */
  lemma HomeWritesAreCommitted(L: Layout, s: State, step: Step, b: nat)
    requires Inv(L, s) && Enabled(L, s, step) && L.IsHome(b)
    requires Next(L, s, step).disk[b] != s.disk[b]
    ensures step == Advance && (s.phase.Installing? || s.phase.Replaying?)
    ensures Next(L, s, step).disk[b] == ApplyTxns(L, s.base, s.committed)[b]
  {
    if step == Advance && !s.phase.CopyToLog? && s.phase.tail < |s.lh| {
      InstallsDurable(L, s);
    }
  }

  /** With nothing in the header the home blocks on disk are the durable contents. */
  lemma QuiescentDiskIsDurable(L: Layout, s: State)
    requires Shape(L, s) && HistoryInv(L, s) && DurableInv(L, s) && HeaderCount(L, s.disk) == 0
    ensures SameHome(L, s.disk, ApplyTxns(L, s.base, s.committed))
  {
    EmptyLogRecovers(L, s.disk);
  }

  ghost predicate AllAdvance(steps: seq<Step>) {
    forall i :: 0 <= i < |steps| ==> steps[i] == Advance
  }

  /** The state after recovery: the log is empty and home holds what was durable. */
  ghost predicate Restored(L: Layout, base: Disk, committed: seq<Txn>, s: State) {
    && Inv(L, s) && s.phase == Running && s.lh == [] && s.base == base && s.committed == committed
    && SameHome(L, s.disk, ApplyTxns(L, s.base, s.committed))
  }

  lemma ReplayStep(L: Layout, s: State) returns (m: State)
    requires Inv(L, s) && s.phase.Replaying?
    ensures Shape(L, s) && Enabled(L, s, Advance) && m == Next(L, s, Advance) && Inv(L, m)
    ensures m.base == s.base && m.committed == s.committed
    ensures if s.phase.tail < |s.lh| then m.lh == s.lh &&
            m.phase == Replaying(s.phase.tail + 1) else Restored(L, s.base, s.committed, m)
  {
    StepKeepsInv(L, s, Advance);
    m := DiskWrite(L, s);
    if s.phase.tail == |s.lh| {
      QuiescentDiskIsDurable(L, m);
    }
  }

  lemma Prepend(L: Layout, s: State, step: Step, steps: seq<Step>, s': State)
    requires Shape(L, s) && Enabled(L, s, step) && Run(L, Next(L, s, step), steps, s')
    ensures Run(L, s, [step] + steps, s')
  {
    assert ([step] + steps)[1..] == steps;
  }

  lemma RunNone(L: Layout, s: State)
    ensures Run(L, s, [], s)
  {
  }

  /** Left alone, recovery ends, and then the home blocks themselves are the durable contents. */
  lemma {:induction false} ReplayFinishes(L: Layout, s: State) returns (s': State, steps: seq<Step>)
    requires Inv(L, s) && s.phase.Replaying?
    ensures Run(L, s, steps, s') && AllAdvance(steps) && Restored(L, s.base, s.committed, s')
    decreases |s.lh| - s.phase.tail
  {
    hide Inv, Run, Restored, Next, Enabled, Shape;
    var m := ReplayStep(L, s);
    RunNone(L, m);
    if s.phase.tail < |s.lh| {
      s', steps := ReplayFinishes(L, m);
    } else {
      s', steps := m, [];
    }
    Prepend(L, s, Advance, steps, s');
    steps := [Advance] + steps;
  }

  // ---- Log space ----

  /**
   * In every run the header and the unused reservations fit, no block is logged twice, and a commit sees no
   * open operation.
   */
  lemma LogSpace(L: Layout, s0: State, steps: seq<Step>, s: State)
    requires Init(L, s0) && Run(L, s0, steps, s)
    ensures |s.lh| + Unused(s.active) <= LOGSIZE && Unused(s.active) >= 0
    ensures Distinct(s.lh)
    ensures s.phase != Running ==> s.outstanding == 0 && s.active == map[]
  {
    InitEstablishesInv(L, s0);
    RunKeepsInv(L, s0, steps, s);
    UnusedBound(s.active);
  }

  ghost function InitState(d: Disk): State {
    State(d, d, [], 0, Running, d, map[], {}, [], EmptyTxn, [])
  }

  /** An operation that has reserved space for one more block asks to log it. */
  ghost predicate Reserved(s: State, op: Op) {
    op in s.active && s.active[op] < MAXOPBLOCKS
  }

  lemma ReservedAppendFits(L: Layout, s: State, op: Op)
    requires Inv(L, s) && Reserved(s, op) && L.nlog > LOGSIZE
    ensures !LogWritePanics(L, s)
  {
    UnusedRemove(s.active, op);
    UnusedBound(s.active - {op});
  }

  /** How much of its reservation operation `op` has used once blocks 0..k are logged ten by ten. */
  function Used(k: nat, op: Op): nat {
    if k <= MAXOPBLOCKS * op then 0 else if k >= MAXOPBLOCKS * op + MAXOPBLOCKS then MAXOPBLOCKS
        else k - MAXOPBLOCKS * op
  }

  lemma {:induction false} Extend(L: Layout, s0: State, steps: seq<Step>, m: State, step: Step)
    requires Run(L, s0, steps, m) && Shape(L, m) && Enabled(L, m, step)
    ensures Run(L, s0, steps + [step], Next(L, m, step))
    decreases |steps|
  {
    if steps == [] {
      assert Run(L, Next(L, m, step), [], Next(L, m, step));
    } else {
      assert (steps + [step])[1..] == steps[1..] + [step];
      Extend(L, Next(L, s0, steps[0]), steps[1..], m, step);
    }
  }

  lemma BeginThree(L: Layout, d: Disk) returns (steps: seq<Step>, s: State)
    requires LegalDisk(L, d) && L.Capacity() >= 0
    ensures Run(L, InitState(d), steps, s)
    ensures Shape(L, s) && s.phase == Running && s.disk == s.view == d && s.lh == [] && s.outstanding == 3
    ensures s.active == map[0 := 0, 1 := 0, 2 := 0]
  {
    var a := InitState(d);
    var b := Begin(a, 0);
    var c := Begin(b, 1);
    Extend(L, a, [], a, BeginOp(0));
    Extend(L, a, [] + [BeginOp(0)], b, BeginOp(1));
    Extend(L, a, [] + [BeginOp(0)] + [BeginOp(1)], c, BeginOp(2));
    steps, s := [] + [BeginOp(0)] + [BeginOp(1)] + [BeginOp(2)], Begin(c, 2);
  }

  /** Three operations begin and log `k` distinct blocks. */
  lemma {:induction false} FillLog(L: Layout, d: Disk, k: nat) returns (steps: seq<Step>, s: State)
    requires LegalDisk(L, d)
    requires k <= L.Capacity() && k <= LOGSIZE && L.start + L.nlog + LOGSIZE <= L.size
    ensures Run(L, InitState(d), steps, s)
    ensures Shape(L, s) && s.phase == Running && s.disk == d && |s.lh| == k && s.outstanding == 3
    ensures s.active == map[0 := Used(k, 0), 1 := Used(k, 1), 2 := Used(k, 2)]
    ensures forall i :: 0 <= i < k ==> s.lh[i] == L.start + L.nlog + i
    ensures |s.view| == |d| && forall b :: 0 <= b < |d| && b !in s.lh ==> s.view[b] == d[b]
  {
    if k == 0 {
      steps, s := BeginThree(L, d);
    } else {
      var steps0, m := FillLog(L, d, k - 1);
      var op, b := (k - 1) / MAXOPBLOCKS, L.start + L.nlog + k - 1;
      assert m.active[op] == Used(k - 1, op) < MAXOPBLOCKS;
      assert b !in m.lh;
      Extend(L, InitState(d), steps0, m, LogWrite(op, b, ZeroBlock()));
      steps, s := steps0 + [LogWrite(op, b, ZeroBlock())], Log(m, op, b, ZeroBlock());
    }
  }

  /** log_write(b) by `op` stays within what begin_op reserved: it logs no new block, or one of the MAXOPBLOCKS. */
  ghost predicate Admitted(L: Layout, s: State, op: Op, b: nat) {
    s.phase == Running && op in s.active && L.IsHome(b) && (b in s.lh || s.active[op] < MAXOPBLOCKS)
  }

  /**
   * In every run, a write within its reservation panics exactly when the header is full. Where the
   * log area has room for LOGSIZE blocks, that leaves one case: every open operation has used up
   * its reservation and the block is already in the header, so it needed no room.
   */
  lemma AdmittedWritePanics(L: Layout, s0: State, steps: seq<Step>, s: State, op: Op, b: nat)
    requires Init(L, s0) && Run(L, s0, steps, s) && Admitted(L, s, op, b)
    ensures LogWritePanics(L, s) <==> |s.lh| == L.Capacity()
    ensures L.nlog > LOGSIZE ==> (LogWritePanics(L, s) <==> |s.lh| == LOGSIZE)
    ensures L.nlog > LOGSIZE && LogWritePanics(L, s) ==> b in s.lh && Unused(s.active) == 0
  {
    LogSpace(L, s0, steps, s);
    InitEstablishesInv(L, s0);
    RunKeepsInv(L, s0, steps, s);
    if L.nlog > LOGSIZE && b !in s.lh {
      ReservedAppendFits(L, s, op);
    }
  }

  /**
   * A log area of any size has a run that ends in such a panic, because the guard comes before the
   * search for the block: an append past a small area, an absorbed write into a full one otherwise.
   */
  lemma AdmittedWriteCanPanic(L: Layout, d: Disk) returns (steps: seq<Step>, s: State, op: Op, b: nat)
    requires LegalDisk(L, d) && HeaderCount(L, d) == 0 && L.start + L.nlog + LOGSIZE <= L.size
    ensures Run(L, InitState(d), steps, s) && Admitted(L, s, op, b) && LogWritePanics(L, s)
    ensures b in s.lh <==> L.nlog > LOGSIZE
  {
    if L.nlog > LOGSIZE {
      steps, s := FillLog(L, d, LOGSIZE);
      op, b := 0, s.lh[0];
    } else {
      steps, s := FillLog(L, d, L.Capacity());
      op, b := L.Capacity() / MAXOPBLOCKS, L.start + L.nlog + LOGSIZE - 1;
    }
  }

  /** If `steps` leads to `s`, a reserved append by `op` in `s` does not panic. */
  ghost predicate Honoured(L: Layout, d: Disk, steps: seq<Step>, s: State, op: Op) {
    Run(L, InitState(d), steps, s) && Reserved(s, op) ==> !LogWritePanics(L, s)
  }

  /**
   * Appends alone: a reserved append can hit the "too big a transaction" panic unless the log area
   * has room for LOGSIZE blocks besides its header. mkfs gives it LOGSIZE in all, so it can.
   */
  lemma ReservationsHonoured(L: Layout, d: Disk)
    requires LegalDisk(L, d) && HeaderCount(L, d) == 0 && L.start + L.nlog + LOGSIZE <= L.size
    ensures L.nlog > LOGSIZE <==> forall steps, s, op :: Honoured(L, d, steps, s, op)
  {
    if L.nlog > LOGSIZE {
      forall steps, s, op
        ensures Honoured(L, d, steps, s, op)
      {
        if Run(L, InitState(d), steps, s) && Reserved(s, op) {
          InitEstablishesInv(L, InitState(d));
          RunKeepsInv(L, InitState(d), steps, s);
          ReservedAppendFits(L, s, op);
        }
      }
    } else {
      var steps, s := FillLog(L, d, L.Capacity());
      assert !Honoured(L, d, steps, s, L.Capacity() / MAXOPBLOCKS);
    }
  }
}
