/**
 * That the log of LogProtocol does commit: what end_op has been called for is durable by the time the last
 * operation's end_op returns, and stays so through any number of crashes.
 */
module LogDurability {
  import opened Blocks
  import opened RedoLog
  import opened LogProtocol

  // ---- What is waiting for a commit ----

  ghost predicate Writes(ws: seq<Write>, b: nat) {
    exists i :: 0 <= i < |ws| && ws[i].block == b
  }

  /**
   * Until the commit the header in memory names exactly the blocks written since the last one, and from it on
   * nothing is waiting. With no operation open and no commit going on nothing is waiting either.
   */
  ghost predicate Pending(s: State) {
    && (s.phase.Running? || s.phase.CopyToLog? ==> forall b :: b in s.lh <==> Writes(s.current.writes, b))
    && (!s.phase.Running? && !s.phase.CopyToLog? ==> s.current.writes == [])
    && (s.phase.Running? && s.outstanding == 0 ==> s.lh == [])
    && (s.phase.CopyToLog? ==> s.lh != [])
  }

  lemma NoneWritten(s: State)
    requires Pending(s) && (s.phase.Running? || s.phase.CopyToLog?) && s.lh == []
    ensures s.current.writes == []
  {
    if s.current.writes != [] {
      assert Writes(s.current.writes, s.current.writes[0].block);
    }
  }

  lemma LogKeepsPending(s: State, op: Op, b: nat, data: Block)
    requires Pending(s) && s.phase.Running? && s.outstanding > 0 && op in s.active && b < |s.view|
    ensures Pending(Log(s, op, b, data))
  {
    var s' := Log(s, op, b, data);
    var ws, ws' := s.current.writes, s'.current.writes;
    forall c
      ensures Writes(ws', c) <==> c == b || Writes(ws, c)
    {
      assert ws'[|ws|].block == b;
      if i :| 0 <= i < |ws| && ws[i].block == c {
        assert ws'[i].block == c;
      }
    }
  }

  lemma StepKeepsPending(L: Layout, s: State, step: Step)
    requires Inv(L, s) && Pending(s) && Enabled(L, s, step)
    ensures Pending(Next(L, s, step))
  {
    hide DurableInv, HistoryInv, Unused, LegalHeader, LegalDisk, InstallOne;
    match step
    case LogWrite(op, b, data) => LogKeepsPending(s, op, b, data);
    case EndOp(op) =>
      if s.lh == [] {
        NoneWritten(s);
      }
    case _ =>
  }

  lemma {:induction false} RunKeepsPending(L: Layout, s0: State, steps: seq<Step>, s: State)
    requires Inv(L, s0) && Pending(s0) && Run(L, s0, steps, s)
    ensures Inv(L, s) && Pending(s)
    decreases |steps|
  {
    hide Inv, Pending, Next, Enabled, Shape;
    if steps != [] {
      StepKeepsPending(L, s0, steps[0]);
      StepKeepsInv(L, s0, steps[0]);
      RunKeepsPending(L, Next(L, s0, steps[0]), steps[1..], s);
    }
  }

  lemma RunFromInit(L: Layout, s0: State, steps: seq<Step>, s: State)
    requires Init(L, s0) && Run(L, s0, steps, s)
    ensures Inv(L, s) && Pending(s)
  {
    InitEstablishesInv(L, s0);
    assert Pending(s0);
    RunKeepsPending(L, s0, steps, s);
  }

  /**
   * In every run: a log nobody uses is empty, with nothing left to commit; a commit that has started has
   * something to write; and it is for every block written since the last one, and no other.
   */
  lemma IdleLogIsEmpty(L: Layout, s0: State, steps: seq<Step>, s: State)
    requires Init(L, s0) && Run(L, s0, steps, s)
    ensures s.phase == Running && s.outstanding == 0 ==> s.lh == [] && s.current.writes == []
    ensures s.phase.CopyToLog? ==> s.lh != [] && s.outstanding == 0
    ensures s.phase == Running || s.phase.CopyToLog? ==>
              forall b :: b in s.lh <==> exists i :: 0 <= i < |s.current.writes| && s.current.writes[i].block == b
  {
    RunFromInit(L, s0, steps, s);
    hide DiskInv, HistoryInv, Run, Unused;
    if s.phase == Running && s.outstanding == 0 {
      NoneWritten(s);
    }
    assert forall b :: Writes(s.current.writes, b) <==>
                       exists i :: 0 <= i < |s.current.writes| && s.current.writes[i].block == b;
  }

  // ---- A commit goes through ----

  /** Commit has written n blocks of the 2 |lh| + 2 it writes. */
  function Left(s: State): int {
    match s.phase
    case CopyToLog(tail) => |s.lh| - tail + 1 + |s.lh| + 1
    case Installing(tail) => |s.lh| - tail + 1
    case _ => 0
  }

  /** The commit is over: `committed` is durable and in place, and the log is empty. */
  ghost predicate Done(L: Layout, base: Disk, committed: seq<Txn>, s: State) {
    && Inv(L, s) && s.phase == Committed && s.lh == [] && s.base == base && s.committed == committed
    && SameHome(L, s.disk, ApplyTxns(L, s.base, s.committed))
  }

  lemma CommitStep(L: Layout, s: State) returns (m: State)
    requires Inv(L, s) && (s.phase.CopyToLog? || s.phase.Installing?)
    ensures Shape(L, s) && Enabled(L, s, Advance) && m == Next(L, s, Advance) && Inv(L, m)
    ensures m.base == s.base && Left(m) == Left(s) - 1
    ensures m.phase.CopyToLog? || m.phase.Installing? || Done(L, s.base, m.committed, m)
    ensures m.phase.CopyToLog? ==> s.phase.CopyToLog?
    ensures m.committed ==
            if s.phase.CopyToLog? && !m.phase.CopyToLog? then s.committed + [s.current] else s.committed
    ensures m.phase.CopyToLog? ==> m.current == s.current
  {
    StepKeepsInv(L, s, Advance);
    m := DiskWrite(L, s);
    if m.phase == Committed {
      QuiescentDiskIsDurable(L, m);
    }
  }

  lemma {:induction false} CommitRuns(L: Layout, s: State) returns (steps: seq<Step>, s': State)
    requires Inv(L, s) && (s.phase.CopyToLog? || s.phase.Installing?)
    ensures Run(L, s, steps, s') && AllAdvance(steps) && |steps| == Left(s) > 0
    ensures Done(L, s.base, if s.phase.CopyToLog? then s.committed + [s.current] else s.committed, s')
    decreases Left(s)
  {
    hide Inv, Run, Done, Next, Enabled, Shape;
    var m := CommitStep(L, s);
    RunNone(L, m);
    if m.phase.CopyToLog? || m.phase.Installing? {
      steps, s' := CommitRuns(L, m);
    } else {
      steps, s' := [], m;
    }
    Prepend(L, s, Advance, steps, s');
    steps := [Advance] + steps;
  }

  lemma EndStarts(L: Layout, s: State, op: Op)
    requires Inv(L, s) && Pending(s) && Enabled(L, s, EndOp(op)) && s.outstanding == 1
    ensures var m := Next(L, s, EndOp(op));
            && Inv(L, m) && m.base == s.base && m.committed == s.committed && m.current == s.current && m.lh == s.lh
            && if s.lh == [] then Done(L, s.base, s.committed, m) else m.phase == CopyToLog(0)
  {
    StepKeepsInv(L, s, EndOp(op));
    if s.lh == [] {
      QuiescentDiskIsDurable(L, Next(L, s, EndOp(op)));
    }
  }

  lemma KeepsBase(L: Layout, s0: State, steps: seq<Step>, s: State)
    requires Init(L, s0) && Run(L, s0, steps, s)
    ensures s.base == s0.base
  {
    InitEstablishesInv(L, s0);
    RunKeepsInv(L, s0, steps, s);
  }

  /**
   * The end_op of the last open operation. Left alone, it commits: after its 2 n + 2 disk writes for n logged
   * blocks, and none for an empty log, the transaction is the last of the committed ones and its content is in
   * place; the phase is Committed, in which alone there is a Finish.
   */
  lemma LastEndCommits(L: Layout, s0: State, before: seq<Step>, s: State, op: Op) returns (steps: seq<Step>, s': State)
    requires Init(L, s0) && Run(L, s0, before, s) && Shape(L, s) && Enabled(L, s, EndOp(op)) && s.outstanding == 1
    ensures Run(L, Next(L, s, EndOp(op)), steps, s') && AllAdvance(steps)
    ensures |steps| == if s.lh == [] then 0 else 2 * |s.lh| + 2
    ensures Done(L, s0.base, if s.lh == [] then s.committed else s.committed + [s.current], s')
    ensures s.lh == [] ==> s.current.writes == []
  {
    RunFromInit(L, s0, before, s);
    KeepsBase(L, s0, before, s);
    EndStarts(L, s, op);
    hide Inv, Pending, Run, Done, Next, Shape;
    var m := Next(L, s, EndOp(op));
    if s.lh == [] {
      NoneWritten(s);
      steps, s' := [], m;
      RunNone(L, m);
    } else {
      steps, s' := CommitRuns(L, m);
    }
  }

  // ---- Operations that have ended ----

  /** Operation op has ended with the writes ws, and no crash since has undone it. */
  ghost predicate Over(s: State, op: Op, ws: seq<Write>) {
    && op in s.begun && op !in s.active && WritesOf(op, s.issued) == ws
    && (op in s.current.ops || InSome(s.committed, op))
  }

  /** Operation op has ended with the writes ws, and they are durable. */
  ghost predicate Durable(s: State, op: Op, ws: seq<Write>) {
    && op in s.begun && op !in s.active && WritesOf(op, s.issued) == ws
    && (ws == [] || InSome(s.committed, op))
  }

  lemma InSomeMore(ts: seq<Txn>, t: Txn, op: Op)
    ensures InSome(ts + [t], op) <==> InSome(ts, op) || op in t.ops
  {
    var all := ts + [t];
    if i :| 0 <= i < |ts| && op in ts[i].ops {
      assert op in all[i].ops;
    }
    assert all[|ts|] == t;
  }

  lemma StepKeepsOver(L: Layout, s: State, step: Step, op: Op, ws: seq<Write>)
    requires Inv(L, s) && Enabled(L, s, step)
    ensures Over(s, op, ws) && step != Crash ==> Over(Next(L, s, step), op, ws)
    ensures Durable(s, op, ws) ==> Durable(Next(L, s, step), op, ws)
  {
    hide DiskInv, HistoryInv, SpaceInv, InSome, InstallOne;
    InSomeMore(s.committed, s.current, op);
    if step.LogWrite? {
      assert (s.issued + [Write(step.op, step.block, step.data)])[..|s.issued|] == s.issued;
    }
  }

  lemma {:induction false} RunKeepsOver(L: Layout, s0: State, steps: seq<Step>, s: State, op: Op, ws: seq<Write>)
    requires Inv(L, s0) && Run(L, s0, steps, s)
    ensures Over(s0, op, ws) && Crash !in steps ==> Over(s, op, ws)
    ensures Durable(s0, op, ws) ==> Durable(s, op, ws)
    decreases |steps|
  {
    hide Inv, Over, Durable, Next, Enabled, Shape;
    if steps != [] {
      StepKeepsInv(L, s0, steps[0]);
      StepKeepsOver(L, s0, steps[0], op, ws);
      RunKeepsOver(L, Next(L, s0, steps[0]), steps[1..], s, op, ws);
    }
  }

  lemma EndIsOver(L: Layout, s: State, op: Op)
    requires Inv(L, s) && Enabled(L, s, EndOp(op))
    ensures Over(Next(L, s, EndOp(op)), op, WritesOf(op, s.issued))
  {
  }

  /** The last operation's end_op is about to return, or has, and nobody has begun another one. */
  predicate Settled(s: State) {
    s.phase == Committed || (s.phase == Running && s.outstanding == 0)
  }

  lemma SettledIsDurable(L: Layout, s: State, op: Op, ws: seq<Write>)
    requires Inv(L, s) && Pending(s) && Settled(s) && Over(s, op, ws)
    ensures Durable(s, op, ws)
  {
    if s.phase == Running {
      NoneWritten(s);
    }
    assert op in s.current.ops ==> WritesOf(op, s.issued) == WritesOf(op, s.current.writes);
  }

  /**
   * Durability. Once an operation has ended, and the log has settled since without a crash, every write the
   * operation made survives whatever comes later, any number of crashes included.
   */
  lemma EndedOperationSurvives(L: Layout, s0: State, before: seq<Step>, s: State, op: Op, after: seq<Step>, t: State,
                               later: seq<Step>, u: State)
    requires Init(L, s0) && Run(L, s0, before, s) && Shape(L, s) && Enabled(L, s, EndOp(op))
    requires Run(L, Next(L, s, EndOp(op)), after, t) && Crash !in after && Settled(t) && Run(L, t, later, u)
    ensures WritesOf(op, SurvivingWrites(u)) == WritesOf(op, Logged(before))
  {
    hide Inv, Run, Pending, Over, Next, Settled, SurvivingWrites, Shape;
    var m, ws := Next(L, s, EndOp(op)), WritesOf(op, s.issued);
    RunFromInit(L, s0, before, s);
    IssuedAreLogged(L, s0, before, s);
    assert [] + Logged(before) == Logged(before);
    StepKeepsInv(L, s, EndOp(op));
    StepKeepsPending(L, s, EndOp(op));
    EndIsOver(L, s, op);
    RunKeepsPending(L, m, after, t);
    RunKeepsOver(L, m, after, t, op, ws);
    SettledIsDurable(L, t, op, ws);
    RunKeepsOver(L, t, later, u, op, ws);
    RunKeepsPending(L, t, later, u);
    assert HistoryInv(L, u) by { InvHas(L, u); }
    SurvivesWhole(L, u, op);
  }

  lemma InvHas(L: Layout, s: State)
    requires Inv(L, s)
    ensures HistoryInv(L, s)
  {
  }
}
