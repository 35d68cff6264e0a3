/**
 * Sleep locks (sleeplock.c) for any number of processes and any interleaving of the steps of
 * acquiresleep, releasesleep, sleep and wakeup.
 */
module SleepLock {
  import opened Options
  import opened SleepWakeup

  datatype Chan = TheLock                    // sleep(lk, &lk->lk)

  datatype Task =
    | Take                                   // the while of acquiresleep and what follows it
    | Free                                   // the assignments of releasesleep
    | Done                                   // release(&lk->lk)

  type Proc = PC<Chan, Task>

  /** `inside[p]`: p is between the end of an acquiresleep and its releasesleep. */
  datatype State = State(lk: Option<nat>, pt: Option<nat>, locked: bool, pid: nat, procs: seq<Proc>, inside: seq<bool>)

  datatype Event = Acquire(p: nat) | Release(p: nat) | Run(p: nat) | Kill(p: nat)

  function Hop(s: State, p: nat, pc: Proc, lk: Option<nat>, pt: Option<nat>): State
    requires p < |s.procs|
  {
    State(lk, pt, s.locked, s.pid, s.procs[p := pc], s.inside)
  }

  function Do(s: State, p: nat, k: Task): (r: State)
    requires p < |s.procs| == |s.inside|
  {
    match k
    case Take =>
      if s.locked then Hop(s, p, Sleep0(TheLock, Take), s.lk, s.pt)
      else State(s.lk, s.pt, true, p, s.procs[p := At(Done)], s.inside[p := true])
    case Free => State(s.lk, s.pt, false, 0, s.procs[p := Wake0(TheLock, Done)], s.inside[p := false])
    case Done => Hop(s, p, Idle, None, s.pt)
  }

  function Next(s: State, p: nat): Option<State>
    requires p < |s.procs| == |s.inside|
  {
    var pc := s.procs[p];
    if Blocked(pc, s.lk, s.pt) then None
    else if pc.At? then Some(Do(s, p, pc.k))
    else if pc.Wake1? && pc.j < |s.procs| then
      var mid := Hop(s, pc.j, Roused(s.procs[pc.j], pc.ch), s.lk, s.pt);
      Some(Hop(mid, p, Wake1(pc.ch, pc.j + 1, pc.k), s.lk, s.pt))
    else
      Some(Hop(s, p, Successor(pc), LockAfter(s.lk, p, TakesLk(pc), DropsLk(pc)),
        LockAfter(s.pt, p, TakesPt(pc), DropsPt(pc))))
  }

  /** A process acquires a lock it does not hold, and releases one it holds. */
  predicate Step(s: State, e: Event, s': State) {
    && e.p < |s.procs| == |s.inside|
    && match e
       case Acquire(p) => s.procs[p] == Idle && !s.inside[p] && s' == Hop(s, p, Lock(Take), s.lk, s.pt)
       case Release(p) => s.procs[p] == Idle && s.inside[p] && s' == Hop(s, p, Lock(Free), s.lk, s.pt)
       case Run(p) => Next(s, p) == Some(s')
       case Kill(p) => s.pt == None && s' == Hop(s, p, Killed(s.procs[p]), s.lk, s.pt)
  }

  // ---- The invariant ----

  predicate WillWake(s: State, p: nat) {
    s.lk != None && s.lk.value < |s.procs| && StillToWake(s.procs[s.lk.value], TheLock, p)
  }

  /** Process p is inside exactly when the lock names it, and sleeps only while the lock is taken. */
  predicate Fits(s: State, p: nat)
    requires p < |s.procs| == |s.inside|
  {
    var pc := s.procs[p];
    && (s.inside[p] <==> s.locked && s.pid == p)
    && (!pc.Idle? ==> (pc.k == Take ==> !s.inside[p]) && (pc.k == Free ==> s.inside[p]))
    && (pc.Wake0? || pc.Wake1? || pc.Wake2? ==> pc.k == Done)
    && (pc.Sleep0? || pc.Sleep1? || pc.Sleep2? || pc.Sleep3? || pc.Asleep? || pc.Woken? || pc.Resume? ==> pc.k == Take)
    && (pc.Lock? ==> pc.k != Done)
    && (AboutToSleep(pc, TheLock) ==> s.locked)
    && (SleepsOn(pc, TheLock) ==> s.locked || WillWake(s, p))
  }

  ghost predicate Inv(s: State) {
    && |s.procs| == |s.inside| && (s.locked ==> s.pid < |s.procs|)
    && Locks(s.procs, s.lk, s.pt)
    && forall p: nat :: p < |s.procs| ==> Fits(s, p)
  }

  lemma DoKeepsInv(s: State, p: nat)
    requires Inv(s) && p < |s.procs| && s.procs[p].At?
    ensures Inv(Do(s, p, s.procs[p].k))
  {
    var s' := Do(s, p, s.procs[p].k);
    MoveKeepsLocks(s.procs, s.lk, s.pt, p, s'.procs[p], s'.lk, s'.pt);
    assert Fits(s, p) && (HoldsLk(s.procs[p]) <==> s.lk == Some(p));
    forall q: nat | q < |s'.procs|
      ensures Fits(s', q)
    {
      assert Fits(s, q) && (HoldsLk(s.procs[q]) <==> s.lk == Some(q));
    }
  }

  lemma HopKeepsInv(s: State, p: nat, s': State)
    requires Inv(s) && p < |s.procs| && Next(s, p) == Some(s') && !s.procs[p].At? &&
             !(s.procs[p].Wake1? && s.procs[p].j < |s.procs|)
    ensures Inv(s')
  {
    SuccessorMoves(s.procs[p], s.lk, s.pt, p);
    MoveKeepsLocks(s.procs, s.lk, s.pt, p, s'.procs[p], s'.lk, s'.pt);
    assert Fits(s, p) && (HoldsLk(s.procs[p]) <==> s.lk == Some(p));
    hide Locks;
    forall q: nat | q < |s'.procs|
      ensures Fits(s', q)
    {
      assert Fits(s, q);
    }
  }

  lemma WakeKeepsInv(s: State, p: nat, s': State)
    requires Inv(s) && p < |s.procs| && Next(s, p) == Some(s') && s.procs[p].Wake1? && s.procs[p].j < |s.procs|
    ensures Inv(s')
  {
    var Wake1(ch, j, k) := s.procs[p];
    var mid := s.procs[j := Roused(s.procs[j], ch)];
    assert HoldsLk(s.procs[j]) == HoldsLk(mid[j]) && HoldsPt(s.procs[j]) == HoldsPt(mid[j]);
    MoveKeepsLocks(s.procs, s.lk, s.pt, j, mid[j], s.lk, s.pt);
    MoveKeepsLocks(mid, s.lk, s.pt, p, Wake1(ch, j + 1, k), s.lk, s.pt);
    assert Fits(s, p) && (HoldsLk(s.procs[p]) <==> s.lk == Some(p)) && (HoldsPt(s.procs[p]) <==> s.pt == Some(p));
    forall q: nat | q < |s'.procs|
      ensures Fits(s', q)
    {
      assert Fits(s, q) && (HoldsPt(s.procs[q]) <==> s.pt == Some(q));
    }
  }

  lemma StepKeepsInv(s: State, e: Event, s': State)
    requires Inv(s) && Step(s, e, s')
    ensures Inv(s')
  {
    var p := e.p;
    if e.Run? {
      if s.procs[p].At? {
        DoKeepsInv(s, p);
      } else if s.procs[p].Wake1? && s.procs[p].j < |s.procs| {
        WakeKeepsInv(s, p, s');
      } else {
        HopKeepsInv(s, p, s');
      }
    } else {
      MoveKeepsLocks(s.procs, s.lk, s.pt, p, s'.procs[p], s'.lk, s'.pt);
      assert Fits(s, p) && (HoldsLk(s.procs[p]) <==> s.lk == Some(p));
      forall q: nat | q < |s'.procs|
        ensures Fits(s', q)
      {
        assert Fits(s, q);
      }
    }
  }

  // ---- Whole runs ----

  predicate Initial(s: State) {
    && s.lk == None && s.pt == None && !s.locked && |s.inside| == |s.procs|
    && forall p :: 0 <= p < |s.procs| ==> s.procs[p] == Idle && !s.inside[p]
  }

  ghost predicate Execution(states: seq<State>, events: seq<Event>) {
    && |states| == |events| + 1 && Initial(states[0])
    && forall i :: 0 <= i < |events| ==> Step(states[i], events[i], states[i + 1])
  }

  lemma {:induction false} RunKeepsInv(states: seq<State>, events: seq<Event>, i: nat)
    requires Execution(states, events) && i < |states|
    ensures Inv(states[i])
    decreases i
  {
    if i > 0 {
      RunKeepsInv(states, events, i - 1);
      assert Step(states[i - 1], events[i - 1], states[i]);
      StepKeepsInv(states[i - 1], events[i - 1], states[i]);
    }
  }

  // ---- Whole calls ----

  /** p is in acquiresleep (`take`) or releasesleep, and past its critical section it has the lock or not. */
  predicate InCall(s: State, p: nat, take: bool) {
    && p < |s.procs| == |s.inside| && !s.procs[p].Idle?
    && (s.procs[p].k == (if take then Take else Free) || (s.procs[p].k == Done && s.inside[p] == take))
  }

  lemma StepKeepsCall(s: State, e: Event, s': State, p: nat, take: bool)
    requires Step(s, e, s') && InCall(s, p, take)
    ensures InCall(s', p, take) || (p < |s'.procs| == |s'.inside| && s'.procs[p] == Idle && s'.inside[p] == take)
  {
  }

  /** While p is outside the lock's code, it keeps the lock or stays without it. */
  lemma StepKeepsInside(s: State, e: Event, s': State, p: nat)
    requires Step(s, e, s') && p < |s.procs| <= |s'.procs| && s.procs[p] == Idle && s'.procs[p] == Idle
    ensures |s'.procs| == |s'.inside| && s'.inside[p] == s.inside[p]
  {
  }

  /** From event a, p's call of acquiresleep or releasesleep, to state b, in which it has returned. */
  ghost predicate Called(states: seq<State>, events: seq<Event>, p: nat, take: bool, a: nat, b: nat) {
    && Execution(states, events) && a < b < |states| && events[a] == (if take then Acquire(p) else Release(p))
    && p < |states[b].procs| && states[b].procs[p] == Idle
    && forall i: nat :: a < i < b ==> p < |states[i].procs| && states[i].procs[p] != Idle
  }

  lemma {:induction false} InCallAt(states: seq<State>, events: seq<Event>, p: nat, take: bool, a: nat, b: nat, i: nat)
    requires Called(states, events, p, take, a, b) && a < i <= b
    ensures i < b ==> InCall(states[i], p, take)
    ensures i == b ==> p < |states[b].inside| && states[b].inside[p] == take
    decreases i
  {
    assert Step(states[i - 1], events[i - 1], states[i]);
    if i > a + 1 {
      InCallAt(states, events, p, take, a, b, i - 1);
      StepKeepsCall(states[i - 1], events[i - 1], states[i], p, take);
    }
  }

  /** acquiresleep returns with the lock, in the caller's name, and releasesleep without it. */
  lemma CallReturns(states: seq<State>, events: seq<Event>, p: nat, take: bool, a: nat, b: nat)
    requires Called(states, events, p, take, a, b)
    ensures states[b].locked && states[b].pid == p <==> take
  {
    InCallAt(states, events, p, take, a, b, b);
    RunKeepsInv(states, events, b);
    assert Fits(states[b], p);
  }

  /** p has returned from acquiresleep in state b and has called neither function since, up to state i. */
  ghost predicate Owner(states: seq<State>, events: seq<Event>, p: nat, a: nat, b: nat, i: nat) {
    && Called(states, events, p, true, a, b) && b <= i < |states|
    && forall j: nat :: b <= j <= i ==> p < |states[j].procs| && states[j].procs[p] == Idle
  }

  lemma {:induction false} OwnerIsInside(states: seq<State>, events: seq<Event>, p: nat, a: nat, b: nat, i: nat)
    requires Owner(states, events, p, a, b, i)
    ensures p < |states[i].inside| && states[i].inside[p]
    decreases i
  {
    if i == b {
      InCallAt(states, events, p, true, a, b, b);
    } else {
      OwnerIsInside(states, events, p, a, b, i - 1);
      assert Step(states[i - 1], events[i - 1], states[i]);
      StepKeepsInside(states[i - 1], events[i - 1], states[i], p);
    }
  }

  /** Of all processes that have returned from acquiresleep, at most one has not called releasesleep. */
  lemma MutualExclusion(states: seq<State>, events: seq<Event>, i: nat, p: nat, a: nat, b: nat, q: nat, c: nat, d: nat)
    requires Owner(states, events, p, a, b, i) && Owner(states, events, q, c, d, i)
    ensures p == q && states[i].locked && states[i].pid == p
  {
    OwnerIsInside(states, events, p, a, b, i);
    OwnerIsInside(states, events, q, c, d, i);
    RunKeepsInv(states, events, i);
    assert Fits(states[i], p) && Fits(states[i], q);
  }

  /** A process asleep on the lock faces a lock that is taken, or a releaser that has yet to wake it. */
  lemma NoLostWakeup(states: seq<State>, events: seq<Event>, i: nat, p: nat)
    requires Execution(states, events) && i < |states| && p < |states[i].procs| && SleepsOn(states[i].procs[p], TheLock)
    ensures states[i].locked || WillWake(states[i], p)
    ensures states[i].lk == None ==> exists q: nat :: q < |states[i].inside| && states[i].inside[q] && q != p
  {
    RunKeepsInv(states, events, i);
    assert Fits(states[i], p);
    if states[i].lk == None {
      assert Fits(states[i], states[i].pid);
    }
  }

  /** When no process can take a step, the sleepers wait for one that is inside and has left the lock's code. */
  lemma NoDeadlock(states: seq<State>, events: seq<Event>, i: nat, p: nat)
    requires Execution(states, events) && i < |states| && p < |states[i].procs| == |states[i].inside| &&
             states[i].procs[p] != Idle
    requires forall q: nat :: q < |states[i].procs| ==> Next(states[i], q) == None
    ensures states[i].procs[p].Asleep?
    ensures exists q: nat :: q < |states[i].procs| && states[i].inside[q] && states[i].procs[q] == Idle
  {
    var s := states[i];
    RunKeepsInv(states, events, i);
    forall q: nat {:trigger s.procs[q]} | q < |s.procs|
      ensures Blocked(s.procs[q], s.lk, s.pt)
    {
      assert Next(s, q) == None;
    }
    AllBlocked(s.procs, s.lk, s.pt);
    assert Next(s, p) == None && Fits(s, p);
    assert s.procs[p].Asleep? && s.procs[p].ch.TheLock? && s.locked;
    assert Fits(s, s.pid) && Next(s, s.pid) == None;
  }
}
