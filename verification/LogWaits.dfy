/**
 * Waiting for the log: begin_op and end_op of log.c for any number of processes, with the steps of sleep and
 * wakeup on &log taken one at a time. Of the log itself only the number of blocks in the header counts here.
 */
module LogWaits {
  import opened Options
  import opened SleepWakeup
  import R = RedoLog

  datatype Chan = TheLog                     // sleep(&log, &log.lock)

  datatype Task =
    | Enter                                  // the loop of begin_op
    | Append(adds: bool)                    // log_write; `adds` if it adds a block to the header
    | Exit                                   // end_op up to its first release
    | Reopen                                 // end_op after commit
    | Done                                   // release(&log.lock)

  type Proc = PC<Chan, Task>

  /** What a process is to the log: in no operation, between begin_op and end_op, or in end_op's commit. */
  datatype Role = Out | InOp | Committer

  datatype State = State(lk: Option<nat>, pt: Option<nat>, n: nat, outstanding: nat, committing: bool, procs: seq<Proc>,
                         role: seq<Role>)

  datatype Event =
    | Begin(p: nat)
    | Log(p: nat, adds: bool)
    | End(p: nat)
    | Clear(p: nat)                          // commit's lh.n = 0
    | Finish(p: nat)                         // commit has returned
    | Run(p: nat)
    | Kill(p: nat)

  function Hop(s: State, p: nat, pc: Proc, lk: Option<nat>, pt: Option<nat>): State
    requires p < |s.procs|
  {
    State(lk, pt, s.n, s.outstanding, s.committing, s.procs[p := pc], s.role)
  }

  /** begin_op has to wait: there is a commit, or the new operation might not find room. */
  predicate MustWait(s: State) {
    s.committing || s.n + (s.outstanding + 1) * R.MAXOPBLOCKS > R.LOGSIZE
  }

  function Do(s: State, p: nat, k: Task): (r: State)
    requires p < |s.procs| == |s.role|
  {
    match k
    case Enter =>
      if MustWait(s) then Hop(s, p, Sleep0(TheLog, Enter), s.lk, s.pt)
      else State(s.lk, s.pt, s.n, s.outstanding + 1, s.committing, s.procs[p := At(Done)], s.role[p := InOp])
    case Append(adds) =>
      State(s.lk, s.pt, if adds then s.n + 1 else s.n, s.outstanding, s.committing, s.procs[p := At(Done)], s.role)
    case Exit =>
      if s.outstanding <= 1 then
        State(s.lk, s.pt, s.n, 0, true, s.procs[p := At(Done)], s.role[p := Committer])
      else
        State(s.lk, s.pt, s.n, s.outstanding - 1, s.committing, s.procs[p := Wake0(TheLog, Done)], s.role[p := Out])
    case Reopen =>
      State(s.lk, s.pt, s.n, s.outstanding, false, s.procs[p := Wake0(TheLog, Done)], s.role[p := Out])
    case Done => Hop(s, p, Idle, None, s.pt)
  }

  function Next(s: State, p: nat): Option<State>
    requires p < |s.procs| == |s.role|
  {
    var pc := s.procs[p];
    if Blocked(pc, s.lk, s.pt) then None
    else if pc.At? then Some(Do(s, p, pc.k))
    else if pc.Wake1? && pc.j < |s.procs| then
      var mid := Hop(s, pc.j, Roused(s.procs[pc.j], pc.ch), s.lk, s.pt);
      Some(Hop(mid, p, Wake1(pc.ch, pc.j + 1, pc.k), s.lk, s.pt))
    else
      Some(Hop(s, p, Successor(pc), LockAfter(s.lk, p, TakesLk(pc), DropsLk(pc)),
        LockAfter(s.pt, p, TakesPt(pc), DropsPt(pc))))
  }

  /** The event that starts a call, the part the process plays then, and the first thing it does with the lock. */
  predicate Starts(e: Event, role: Role, k: Task) {
    match e
    case Begin(_) => role == Out && k == Enter
    case Log(_, adds) => role == InOp && k == Append(adds)
    case End(_) => role == InOp && k == Exit
    case Finish(_) => role == Committer && k == Reopen
    case _ => false
  }

  ghost predicate Step(s: State, e: Event, s': State) {
    && e.p < |s.procs| == |s.role|
    && match e
       case Run(p) => Next(s, p) == Some(s')
       case Kill(p) => s.pt == None && s' == Hop(s, p, Killed(s.procs[p]), s.lk, s.pt)
       case Clear(p) => s.procs[p] == Idle && s.role[p] == Committer && s' == s.(n := 0)
       case _ =>
         && s.procs[e.p] == Idle && (e.Finish? ==> s.n == 0)
         && exists k :: Starts(e, s.role[e.p], k) && s' == Hop(s, e.p, Lock(k), s.lk, s.pt)
  }

  // ---- The invariant ----

  function Count(role: seq<Role>, r: Role): nat {
    if role == [] then 0 else (if role[0] == r then 1 else 0) + Count(role[1..], r)
  }

  lemma {:induction false} CountUpdate(role: seq<Role>, p: nat, to: Role, r: Role)
    requires p < |role|
    ensures Count(role[p := to], r) == Count(role, r) - (if role[p] == r then 1 else 0) + if to == r then 1 else 0
    ensures role[p] == r ==> Count(role, r) > 0
    decreases |role|
  {
    if p == 0 {
      assert role[p := to][1..] == role[1..];
    } else {
      assert role[p := to][1..] == role[1..][p - 1 := to];
      CountUpdate(role[1..], p - 1, to, r);
    }
  }

  lemma {:induction false} CountSome(role: seq<Role>, r: Role) returns (p: nat)
    requires Count(role, r) > 0
    ensures p < |role| && role[p] == r
    decreases |role|
  {
    p := 0;
    if role[0] != r {
      p := CountSome(role[1..], r);
      p := p + 1;
    }
  }

  predicate WillWake(s: State, p: nat) {
    s.lk != None && s.lk.value < |s.procs| && StillToWake(s.procs[s.lk.value], TheLog, p)
  }

  predicate TaskFits(k: Task, role: Role) {
    match k
    case Enter => role == Out
    case Append(_) => role == InOp
    case Exit => role == InOp
    case Reopen => role == Committer
    case Done => true
  }

  /** Process p is where its role allows, and sleeps only while it has to wait or is about to be woken. */
  predicate Fits(s: State, p: nat)
    requires p < |s.procs| == |s.role|
  {
    var pc := s.procs[p];
    && (!pc.Idle? ==> TaskFits(pc.k, s.role[p]))
    && (pc.Wake0? || pc.Wake1? || pc.Wake2? ==> pc.k == Done)
    && (pc.Sleep0? || pc.Sleep1? || pc.Sleep2? || pc.Sleep3? || pc.Asleep? || pc.Woken? || pc.Resume? ==> pc.k == Enter)
    && (pc.Lock? ==> pc.k != Done)
    && (!pc.Idle? && pc.k == Reopen ==> s.n == 0)
    && (AboutToSleep(pc, TheLog) ==> MustWait(s))
    && (SleepsOn(pc, TheLog) ==> MustWait(s) || WillWake(s, p))
  }

  /** The counters are those of the processes; a log that is neither used nor committed is empty. */
  ghost predicate Books(s: State) {
    && |s.procs| == |s.role|
    && s.outstanding == Count(s.role, InOp) && Count(s.role, Committer) == (if s.committing then 1 else 0)
    && (s.committing ==> s.outstanding == 0)
    && (s.outstanding == 0 && !s.committing ==> s.n == 0)
  }

  ghost predicate Inv(s: State) {
    && Books(s) && Locks(s.procs, s.lk, s.pt)
    && forall p: nat :: p < |s.procs| ==> Fits(s, p)
  }

  lemma DoKeepsBooks(s: State, p: nat)
    requires Inv(s) && p < |s.procs| && s.procs[p].At?
    ensures Books(Do(s, p, s.procs[p].k))
  {
    var s' := Do(s, p, s.procs[p].k);
    assert Fits(s, p);
    CountUpdate(s.role, p, s'.role[p], InOp);
    CountUpdate(s.role, p, s'.role[p], Committer);
    assert s.role[p := s.role[p]] == s.role;
    hide Count, Locks;
  }

  /** Roles as counted: with a process in an operation there is no commit, with one in commit no operation. */
  lemma OneSide(s: State, p: nat)
    requires Books(s) && p < |s.role|
    ensures s.role[p] == InOp ==> s.outstanding > 0 && !s.committing
    ensures s.role[p] == Committer ==> s.committing && s.outstanding == 0
  {
    CountUpdate(s.role, p, Out, s.role[p]);
  }

  lemma DoFits(s: State, p: nat, q: nat)
    requires Inv(s) && p < |s.procs| && s.procs[p].At? && q < |s.procs|
    ensures Fits(Do(s, p, s.procs[p].k), q)
  {
    assert Fits(s, p) && (HoldsLk(s.procs[p]) <==> s.lk == Some(p));
    assert Fits(s, q) && (HoldsLk(s.procs[q]) <==> s.lk == Some(q));
    OneSide(s, p);
    OneSide(s, q);
    hide Inv, Locks, Books, Count;
  }

  lemma DoKeepsInv(s: State, p: nat)
    requires Inv(s) && p < |s.procs| && s.procs[p].At?
    ensures Inv(Do(s, p, s.procs[p].k))
  {
    var s' := Do(s, p, s.procs[p].k);
    DoKeepsBooks(s, p);
    MoveKeepsLocks(s.procs, s.lk, s.pt, p, s'.procs[p], s'.lk, s'.pt);
    hide Books, Locks, Fits;
    forall q: nat | q < |s'.procs|
      ensures Fits(s', q)
    {
      DoFits(s, p, q);
    }
  }

  lemma HopKeepsInv(s: State, p: nat, s': State)
    requires Inv(s) && p < |s.procs| && Next(s, p) == Some(s') && !s.procs[p].At? &&
             !(s.procs[p].Wake1? && s.procs[p].j < |s.procs|)
    ensures Inv(s')
  {
    SuccessorMoves(s.procs[p], s.lk, s.pt, p);
    MoveKeepsLocks(s.procs, s.lk, s.pt, p, s'.procs[p], s'.lk, s'.pt);
    assert Fits(s, p) && (HoldsLk(s.procs[p]) <==> s.lk == Some(p));
    hide Locks, Count;
    forall q: nat | q < |s'.procs|
      ensures Fits(s', q)
    {
      assert Fits(s, q);
    }
  }

  lemma WakeKeepsInv(s: State, p: nat, s': State)
    requires Inv(s) && p < |s.procs| && Next(s, p) == Some(s') && s.procs[p].Wake1? && s.procs[p].j < |s.procs|
    ensures Inv(s')
  {
    var Wake1(ch, j, k) := s.procs[p];
    var mid := s.procs[j := Roused(s.procs[j], ch)];
    assert HoldsLk(s.procs[j]) == HoldsLk(mid[j]) && HoldsPt(s.procs[j]) == HoldsPt(mid[j]);
    MoveKeepsLocks(s.procs, s.lk, s.pt, j, mid[j], s.lk, s.pt);
    MoveKeepsLocks(mid, s.lk, s.pt, p, Wake1(ch, j + 1, k), s.lk, s.pt);
    assert Fits(s, p) && (HoldsLk(s.procs[p]) <==> s.lk == Some(p)) && (HoldsPt(s.procs[p]) <==> s.pt == Some(p));
    hide Count;
    forall q: nat | q < |s'.procs|
      ensures Fits(s', q)
    {
      assert Fits(s, q) && (HoldsPt(s.procs[q]) <==> s.pt == Some(q));
    }
  }

  /** p, without the lock, goes to pc, still without it: nobody else is concerned. */
  lemma HopFits(s: State, p: nat, pc: Proc, q: nat)
    requires p < |s.procs| == |s.role| && q < |s.procs| && Fits(s, q) && s.lk != Some(p)
    ensures q != p ==> Fits(Hop(s, p, pc, s.lk, s.pt), q)
  {
  }

  lemma CallFits(s: State, e: Event, s': State, q: nat)
    requires Inv(s) && Step(s, e, s') && !e.Run? && q < |s.procs|
    ensures |s'.procs| == |s'.role| == |s.procs| && Fits(s', q)
  {
    assert Fits(s, q) && Fits(s, e.p);
    assert HoldsLk(s.procs[e.p]) <==> s.lk == Some(e.p);
    OneSide(s, e.p);
    if e.Kill? {
      KillFits(s, e.p, q);
    } else if !e.Clear? {
      hide Inv, Locks, Books, Count, SleepsOn, AboutToSleep, MustWait;
      var k :| Starts(e, s.role[e.p], k) && s' == Hop(s, e.p, Lock(k), s.lk, s.pt);
      if q != e.p {
        HopFits(s, e.p, Lock(k), q);
      }
    }
  }

  lemma KillFits(s: State, p: nat, q: nat)
    requires p < |s.procs| == |s.role| && q < |s.procs| && Fits(s, q) && Fits(s, p)
    requires HoldsLk(s.procs[p]) <==> s.lk == Some(p)
    ensures Fits(Hop(s, p, Killed(s.procs[p]), s.lk, s.pt), q)
  {
    if s.procs[p].Asleep? {
      HopFits(s, p, Woken(s.procs[p].k), q);
    } else {
      assert s.procs[p := s.procs[p]] == s.procs;
    }
  }

  lemma CallKeepsInv(s: State, e: Event, s': State)
    requires Inv(s) && Step(s, e, s') && !e.Run?
    ensures Inv(s')
  {
    hide Fits, Count;
    var p := e.p;
    assert s.procs[p := s.procs[p]] == s.procs;
    MoveKeepsLocks(s.procs, s.lk, s.pt, p, s'.procs[p], s'.lk, s'.pt);
    OneSide(s, p);
    forall q: nat | q < |s'.procs|
      ensures Fits(s', q)
    {
      CallFits(s, e, s', q);
    }
  }

  lemma StepKeepsInv(s: State, e: Event, s': State)
    requires Inv(s) && Step(s, e, s')
    ensures Inv(s')
  {
    hide Inv, Do;
    if !e.Run? {
      CallKeepsInv(s, e, s');
    } else if s.procs[e.p].At? {
      DoKeepsInv(s, e.p);
    } else if s.procs[e.p].Wake1? && s.procs[e.p].j < |s.procs| {
      WakeKeepsInv(s, e.p, s');
    } else {
      HopKeepsInv(s, e.p, s');
    }
  }

  // ---- Whole runs ----

  predicate Initial(s: State) {
    && s.lk == None && s.pt == None && s.n == 0 && s.outstanding == 0 && !s.committing && |s.role| == |s.procs|
    && forall p :: 0 <= p < |s.procs| ==> s.procs[p] == Idle && s.role[p] == Out
  }

  ghost predicate Execution(states: seq<State>, events: seq<Event>) {
    && |states| == |events| + 1 && Initial(states[0])
    && forall i :: 0 <= i < |events| ==> Step(states[i], events[i], states[i + 1])
  }

  lemma {:induction false} NoneCounted(role: seq<Role>, r: Role)
    requires forall p :: 0 <= p < |role| ==> role[p] != r
    ensures Count(role, r) == 0
  {
    if role != [] {
      NoneCounted(role[1..], r);
    }
  }

  lemma {:induction false} RunKeepsInv(states: seq<State>, events: seq<Event>, i: nat)
    requires Execution(states, events) && i < |states|
    ensures Inv(states[i])
    decreases i
  {
    if i == 0 {
      NoneCounted(states[0].role, InOp);
      NoneCounted(states[0].role, Committer);
    } else {
      RunKeepsInv(states, events, i - 1);
      assert Step(states[i - 1], events[i - 1], states[i]);
      StepKeepsInv(states[i - 1], events[i - 1], states[i]);
    }
  }

  /** end_op never finds a commit going on, so that its panic does not happen; nor does a second commit. */
  lemma NoPanicInEnd(states: seq<State>, events: seq<Event>, i: nat, p: nat)
    requires Execution(states, events) && i < |states| && p < |states[i].procs| && states[i].procs[p] == At(Exit)
    ensures states[i].outstanding > 0 && !states[i].committing
  {
    RunKeepsInv(states, events, i);
    var s := states[i];
    assert Fits(s, p);
    OneSide(s, p);
  }

  /** Whenever log.lock is free, who sleeps in begin_op has to wait; nobody sleeps before a log that is not in use. */
  lemma NoLostWakeup(states: seq<State>, events: seq<Event>, i: nat, p: nat)
    requires Execution(states, events) && i < |states| && p < |states[i].procs| && states[i].lk == None
    requires SleepsOn(states[i].procs[p], TheLog)
    ensures MustWait(states[i]) && (states[i].outstanding > 0 || states[i].committing)
  {
    RunKeepsInv(states, events, i);
    assert Fits(states[i], p);
  }

  /** When no process can go on by itself, the sleepers wait for one that is in its operation or in commit. */
  lemma NoDeadlock(states: seq<State>, events: seq<Event>, i: nat, p: nat)
    requires Execution(states, events) && i < |states| && p < |states[i].procs| == |states[i].role|
    requires states[i].procs[p] != Idle
    requires forall q: nat :: q < |states[i].procs| ==> Next(states[i], q) == None
    ensures states[i].procs[p].Asleep?
    ensures exists q: nat :: q < |states[i].procs| && states[i].role[q] != Out && states[i].procs[q] == Idle
  {
    var s := states[i];
    RunKeepsInv(states, events, i);
    forall q: nat {:trigger s.procs[q]} | q < |s.procs|
      ensures Blocked(s.procs[q], s.lk, s.pt)
    {
      assert Next(s, q) == None;
    }
    AllBlocked(s.procs, s.lk, s.pt);
    assert Next(s, p) == None && Fits(s, p);
    assert s.procs[p].Asleep? && s.procs[p].ch.TheLog? && MustWait(s);
    var r := if s.committing then Committer else InOp;
    var q := CountSome(s.role, r);
    assert Next(s, q) == None && Fits(s, q);
  }

  // ---- Whole calls ----

  /** The parts a process may play while it is in begin_op or end_op, before and after its critical section. */
  predicate InCall(s: State, p: nat, enter: bool) {
    && p < |s.procs| == |s.role| && !s.procs[p].Idle?
    && (s.procs[p].k == (if enter then Enter else Exit) || (s.procs[p].k == Done && Left(s.role[p], enter)))
  }

  /** What begin_op (`enter`) or the first part of end_op leaves the process as. */
  predicate Left(role: Role, enter: bool) {
    if enter then role == InOp else role != InOp
  }

  lemma StepKeepsCall(s: State, e: Event, s': State, p: nat, enter: bool)
    requires Step(s, e, s') && InCall(s, p, enter)
    ensures InCall(s', p, enter) || (p < |s'.procs| == |s'.role| && s'.procs[p] == Idle && Left(s'.role[p], enter))
  {
    if e != Run(p) {
      OthersKeep(s, e, s', p);
    } else {
      hide MustWait, LockAfter, TakesLk, TakesPt, DropsLk, DropsPt;
    }
  }

  lemma OthersKeep(s: State, e: Event, s': State, p: nat)
    requires Step(s, e, s') && e != Run(p) && p < |s.procs| && s.procs[p] != Idle
    ensures |s'.procs| == |s'.role| == |s.procs| && s'.role[p] == s.role[p]
    ensures s'.procs[p] != Idle && s'.procs[p].k == s.procs[p].k
  {
    hide MustWait, Starts;
  }

  /** From event a, p's call of begin_op or end_op, to state b, in which it has released the lock again. */
  ghost predicate Called(states: seq<State>, events: seq<Event>, p: nat, enter: bool, a: nat, b: nat) {
    && Execution(states, events) && a < b < |states| && events[a] == (if enter then Begin(p) else End(p))
    && p < |states[b].procs| && states[b].procs[p] == Idle
    && forall i: nat :: a < i < b ==> p < |states[i].procs| && states[i].procs[p] != Idle
  }

  lemma {:induction false} InCallAt(states: seq<State>, events: seq<Event>, p: nat, enter: bool, a: nat, b: nat, i: nat)
    requires Called(states, events, p, enter, a, b) && a < i <= b
    ensures i < b ==> InCall(states[i], p, enter)
    ensures i == b ==> p < |states[b].role| && Left(states[b].role[p], enter)
    decreases i
  {
    assert Step(states[i - 1], events[i - 1], states[i]);
    if i > a + 1 {
      InCallAt(states, events, p, enter, a, b, i - 1);
      StepKeepsCall(states[i - 1], events[i - 1], states[i], p, enter);
    }
  }

  /**
   * begin_op returns into an operation, which is counted and keeps commits away; end_op leaves it, and if it is the
   * one that commits, no operation is left.
   */
  lemma CallReturns(states: seq<State>, events: seq<Event>, p: nat, enter: bool, a: nat, b: nat)
    requires Called(states, events, p, enter, a, b)
    ensures p < |states[b].role| && (states[b].role[p] == InOp <==> enter)
    ensures enter ==> states[b].outstanding > 0 && !states[b].committing
    ensures states[b].role[p] == Committer ==> states[b].committing && states[b].outstanding == 0
  {
    InCallAt(states, events, p, enter, a, b, b);
    RunKeepsInv(states, events, b);
    OneSide(states[b], p);
  }
}
