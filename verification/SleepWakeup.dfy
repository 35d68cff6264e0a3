/**
 * sleep, wakeup and wakeup1 of proc.c as steps of processes that share one spin lock (`lk`) and the
 * process-table lock (`pt`). C is the type of channels; K says what a process does with `lk` held.
 */
module SleepWakeup {
  import opened Options

  datatype PC<C, K> =
    | Idle
    | Lock(k: K)                          // acquire(lk)
    | At(k: K)                            // holds lk
    | Wake0(ch: C, k: K)                  // wakeup: acquire(&ptable.lock)
    | Wake1(ch: C, j: nat, k: K)          // wakeup1 at entry j of the table
    | Wake2(k: K)                         // release(&ptable.lock)
    | Sleep0(ch: C, k: K)                 // sleep: acquire(&ptable.lock)
    | Sleep1(ch: C, k: K)                 // release(lk)
    | Sleep2(ch: C, k: K)                 // chan and state are set
    | Sleep3(ch: C, k: K)                 // sched: the scheduler releases ptable.lock
    | Asleep(ch: C, k: K)
    | Woken(k: K)                         // RUNNABLE, waiting for the scheduler
    | Resume(k: K)                        // back from sched: release(&ptable.lock), then acquire(lk)

  // ---- Which lock each step takes or releases, and what comes next ----

  predicate TakesLk<C, K>(pc: PC<C, K>) {
    pc.Lock?
  }

  predicate TakesPt<C, K>(pc: PC<C, K>) {
    pc.Wake0? || pc.Sleep0? || pc.Woken?
  }

  predicate DropsLk<C, K>(pc: PC<C, K>) {
    pc.Sleep1?
  }

  predicate DropsPt<C, K>(pc: PC<C, K>) {
    pc.Wake2? || pc.Sleep3? || pc.Resume?
  }

  function Successor<C, K>(pc: PC<C, K>): PC<C, K> {
    match pc
    case Lock(k) => At(k)
    case Wake0(ch, k) => Wake1(ch, 0, k)
    case Wake1(ch, j, k) => Wake2(k)
    case Wake2(k) => At(k)
    case Sleep0(ch, k) => Sleep1(ch, k)
    case Sleep1(ch, k) => Sleep2(ch, k)
    case Sleep2(ch, k) => Sleep3(ch, k)
    case Sleep3(ch, k) => Asleep(ch, k)
    case Woken(k) => Resume(k)
    case Resume(k) => Lock(k)
    case _ => pc
  }

  function LockAfter(lk: Option<nat>, p: nat, takes: bool, drops: bool): Option<nat> {
    if takes then Some(p) else if drops then None else lk
  }

  predicate Blocked<C, K>(pc: PC<C, K>, lk: Option<nat>, pt: Option<nat>) {
    pc.Idle? || pc.Asleep? || (TakesLk(pc) && lk != None) || (TakesPt(pc) && pt != None)
  }

  /** wakeup1 at one table entry; kill wakes the process on whatever channel it sleeps. */
  function Roused<C(==), K>(pc: PC<C, K>, ch: C): PC<C, K> {
    if pc.Asleep? && pc.ch == ch then Woken(pc.k) else pc
  }

  function Killed<C, K>(pc: PC<C, K>): PC<C, K> {
    if pc.Asleep? then Woken(pc.k) else pc
  }

  // ---- Who holds the locks ----

  predicate HoldsLk<C, K>(pc: PC<C, K>) {
    pc.At? || pc.Wake0? || pc.Wake1? || pc.Wake2? || pc.Sleep0? || pc.Sleep1?
  }

  predicate HoldsPt<C, K>(pc: PC<C, K>) {
    pc.Wake1? || pc.Wake2? || pc.Sleep1? || pc.Sleep2? || pc.Sleep3? || pc.Resume?
  }

  ghost predicate Locks<C, K>(procs: seq<PC<C, K>>, lk: Option<nat>, pt: Option<nat>) {
    && (forall p: nat {:trigger procs[p]} :: p < |procs| ==> (HoldsLk(procs[p]) <==> lk == Some(p)))
    && (forall p: nat {:trigger procs[p]} :: p < |procs| ==> (HoldsPt(procs[p]) <==> pt == Some(p)))
    && (lk != None ==> lk.value < |procs|) && (pt != None ==> pt.value < |procs|)
  }

  /** A lock after process p, which held it or not, went on to hold it or not. */
  predicate LockMoves(lk: Option<nat>, p: nat, holds: bool, holds': bool, lk': Option<nat>) {
    && (holds == holds' ==> lk' == lk)
    && (!holds && holds' ==> lk == None && lk' == Some(p))
    && (holds && !holds' ==> lk' == None)
  }

  lemma MoveKeepsLocks<C, K>(procs: seq<PC<C, K>>, lk: Option<nat>, pt: Option<nat>, p: nat, pc: PC<C, K>,
                             lk': Option<nat>, pt': Option<nat>)
    requires Locks(procs, lk, pt) && p < |procs|
    requires LockMoves(lk, p, HoldsLk(procs[p]), HoldsLk(pc), lk') &&
             LockMoves(pt, p, HoldsPt(procs[p]), HoldsPt(pc), pt')
    ensures Locks(procs[p := pc], lk', pt')
  {
    assert HoldsLk(procs[p]) <==> lk == Some(p);
    assert HoldsPt(procs[p]) <==> pt == Some(p);
    var procs' := procs[p := pc];
    forall q: nat {:trigger procs'[q]} | q < |procs'|
      ensures HoldsLk(procs'[q]) <==> lk' == Some(q)
      ensures HoldsPt(procs'[q]) <==> pt' == Some(q)
    {
      if q != p {
        assert HoldsLk(procs[q]) <==> lk == Some(q);
        assert HoldsPt(procs[q]) <==> pt == Some(q);
      }
    }
  }

  lemma SuccessorMoves<C, K>(pc: PC<C, K>, lk: Option<nat>, pt: Option<nat>, p: nat)
    requires !Blocked(pc, lk, pt) && !pc.At?
    ensures LockMoves(lk, p, HoldsLk(pc), HoldsLk(Successor(pc)), LockAfter(lk, p, TakesLk(pc), DropsLk(pc)))
    ensures LockMoves(pt, p, HoldsPt(pc), HoldsPt(Successor(pc)), LockAfter(pt, p, TakesPt(pc), DropsPt(pc)))
    ensures !Successor(pc).Idle? && Successor(pc).k == pc.k
  {
  }

  /** The holder of a lock, or the process it waits for, is not blocked: if all are, both locks are free. */
  lemma AllBlocked<C, K>(procs: seq<PC<C, K>>, lk: Option<nat>, pt: Option<nat>)
    requires Locks(procs, lk, pt) && forall p: nat {:trigger procs[p]} :: p < |procs| ==> Blocked(procs[p], lk, pt)
    ensures lk == None && pt == None
  {
    var p := if pt != None then pt.value else if lk != None then lk.value else 0;
    if p < |procs| {
      var pc := procs[p];
    }
  }

  // ---- Sleepers ----

  /** p has given up lk to sleep on ch and has not been woken. */
  predicate SleepsOn<C(==), K>(pc: PC<C, K>, ch: C) {
    (pc.Sleep2? || pc.Sleep3? || pc.Asleep?) && pc.ch == ch
  }

  predicate AboutToSleep<C(==), K>(pc: PC<C, K>, ch: C) {
    (pc.Sleep0? || pc.Sleep1?) && pc.ch == ch
  }

  /** A waker at pc has yet to pass process p. */
  predicate StillToWake<C(==), K>(pc: PC<C, K>, ch: C, p: nat) {
    (pc.Wake0? && pc.ch == ch) || (pc.Wake1? && pc.ch == ch && pc.j <= p)
  }
}
