/**
 * The priority queue over the whole life of processes: fork, exit, wait, the remove_node system call and
 * prio_set, whose search, removal, assignment and enqueue are separate steps because it drops the queue's
 * lock in between. The state holds the pointers themselves, so that a damaged list can be reached.
 *
 * remove_node indexes the queue with the priority it finds in the process. That is -1 once wait has freed the
 * slot: `queue[-1]` is the last entry of the lock's recorded call stack, null at the depth of these calls.
 */
module ProcessQueue {
  import opened Options
  import opened LinkedLists
  import opened Sequences
  import opened RunQueue

  /** Stands for the priority -1 that wait stores: no bucket. */
  const UNSET := PRIO_MAX

  /** Free; allocated and not yet enqueued by fork; from that enqueue to exit's remove_node; until wait. */
  datatype Life = Free | Born | Live | Dead

  /** How far a call of prio_set has come. */
  datatype Call = NoCall | Found(p: nat, pr: nat) | Unlinked(p: nat, pr: nat) | Assigned(p: nat, pr: nat)

  datatype Machine = Machine(
    heads: Links, next: Links, prio: seq<nat>,
    pid: seq<nat>, state: seq<State>, parent: Links, life: seq<Life>, nextpid: nat,
    calls: seq<Call>,                         // by calling process
    astray: bool)                             // remove_node has taken a word outside the queue for a list

  datatype Event =
    | Boot(p: nat)                            // allocproc and userinit for the first process
    | Alloc(p: nat)                           // allocproc
    | AllocFails(p: nat)
    | Adopt(p: nat, q: nat)                  // fork2 sets parent and priority
    | ForkEnqueue(p: nat)
    | Ready(p: nat)
    | Schedule                                // pq1_dequeue by the scheduler, then RUNNING
    | Rotate                                  // pq1_dequeue by the test_2 system call
    | SetState(p: nat, st: State)             // yield, sleep, wakeup, kill
    | Leave(p: nat, id: int, level: int)      // the remove_node system call: p hands in a pid and a priority
    | ExitUnlink(p: nat, heir: nat)           // exit up to remove_node
    | ExitDone(p: nat)
    | Reap(p: nat, q: nat)                   // wait
    | PrioFind(c: nat, p: nat, target: nat, pr: nat)
    | PrioUnlink(c: nat)
    | PrioAssign(c: nat)
    | PrioEnqueue(c: nat)

  // ---- Lists as pointers ----

  /** From `head` the links run through l and end. */
  ghost predicate List(next: Links, head: Option<nat>, l: seq<nat>) {
    head == Head(l) && Chain(next, l)
  }

  lemma {:induction false} ListUnique(next: Links, head: Option<nat>, l: seq<nat>, l': seq<nat>)
    requires List(next, head, l) && List(next, head, l')
    ensures l == l'
    decreases |l|
  {
    if l != [] && l' != [] {
      TailIsList(next, l);
      TailIsList(next, l');
      ListUnique(next, next[l[0]], l[1..], l'[1..]);
      assert l == [l[0]] + l[1..] && l' == [l'[0]] + l'[1..];
    }
  }

  lemma TailIsList(next: Links, l: seq<nat>)
    requires Chain(next, l) && l != []
    ensures l[0] < |next| && List(next, next[l[0]], l[1..])
  {
    var t := l[1..];
    forall k | 0 <= k < |t|
      ensures t[k] < |next| && next[t[k]] == Head(t[k + 1..])
    {
      assert t[k] == l[k + 1] && t[k + 1..] == l[k + 2..];
    }
  }

  /** The lists are well formed and hold each process at most once, in the bucket of its priority. */
  ghost predicate WellFormed(m: Machine, bs: seq<seq<nat>>) {
    Threads(m.heads, m.next, m.prio, bs, {})
  }

  lemma BucketsUnique(m: Machine, bs: seq<seq<nat>>, bs': seq<seq<nat>>)
    requires WellFormed(m, bs) && WellFormed(m, bs')
    ensures bs == bs'
  {
    forall b: nat | b < PRIO_MAX
      ensures bs[b] == bs'[b]
    {
      BucketFacts(m.heads, m.next, m.prio, bs, {}, b);
      BucketFacts(m.heads, m.next, m.prio, bs', {}, b);
      ListUnique(m.next, m.heads[b], bs[b], bs'[b]);
    }
  }

  // ---- The stores ----

  /** remove_node for a pid in bucket b, when the walk through the bucket ends. */
  ghost predicate Unlinks(m: Machine, b: nat, pid: int, heads': Links, next': Links) {
    b < |m.heads| && exists l :: List(m.next, m.heads[b], l) && UnlinksFrom(m, b, pid, l, heads', next')
  }

  ghost predicate UnlinksFrom(m: Machine, b: nat, pid: int, l: seq<nat>, heads': Links, next': Links)
    requires b < |m.heads| && List(m.next, m.heads[b], l)
  {
    || (NoPid(m, l, |l|, pid) && heads' == m.heads && next' == m.next)
    || exists k: nat :: k < |l| && l[k] < |m.pid| && m.pid[l[k]] == pid && NoPid(m, l, k, pid)
         && heads' == (if k == 0 then m.heads[b := m.next[l[0]]] else m.heads)
         && next' == SkipLink(m.next, l, k)[l[k] := None]
  }

  /** remove_node(p). */
  ghost predicate Removes(m: Machine, p: nat, heads': Links, next': Links) {
    && p < |m.prio| == |m.pid|
    && if m.prio[p] == UNSET then heads' == m.heads && next' == m.next
       else Unlinks(m, m.prio[p], m.pid[p], heads', next')
  }

  predicate NoPid(m: Machine, l: seq<nat>, k: nat, pid: int) {
    k <= |l| && forall i :: 0 <= i < k ==> l[i] < |m.pid| && m.pid[l[i]] != pid
  }

  /** pq1_dequeue returning process c from bucket b, when its walks end. */
  ghost predicate Dequeues(m: Machine, b: nat, c: nat, heads': Links, next': Links) {
    && b < |m.heads| && |m.state| == |m.next|
    && (forall a: nat :: a < b ==> NothingIn(m, a))
    && exists l, k: nat :: DequeuesAt(m, b, c, l, k, heads', next')
  }

  ghost predicate DequeuesAt(m: Machine, b: nat, c: nat, l: seq<nat>, k: nat, heads': Links, next': Links)
    requires b < |m.heads| && |m.state| == |m.next|
  {
    && List(m.next, m.heads[b], l) && k < |l| && l[k] == c && FirstOf(m, l, k) && c < |m.prio| && m.prio[c] == b
    && Turned(m.heads, m.next, l, k, b) == (heads', next')
  }

  /** The stores of pq1_dequeue for position k of list l in bucket b. */
  ghost function Turned(heads: Links, next: Links, l: seq<nat>, k: nat, b: nat): (Links, Links)
    requires b < |heads| && k < |l| && Chain(next, l)
  {
    SkipKeepsRange(next, l, k);
    (heads[b := Head(Rotated(l, k))], TailLink(SkipLink(next, l, k), Without(l, k), l[k]))
  }

  lemma SkipKeepsRange(next: Links, l: seq<nat>, k: nat)
    requires Chain(next, l) && k < |l|
    ensures forall i :: 0 <= i < |Without(l, k)| ==> Without(l, k)[i] < |next|
  {
    forall i | 0 <= i < |Without(l, k)|
      ensures Without(l, k)[i] < |next|
    {
      WithoutAt(l, k, i);
    }
  }

  ghost predicate FirstOf(m: Machine, l: seq<nat>, k: nat)
    requires |m.state| == |m.next| && Chain(m.next, l)
  {
    k < |l| && m.state[l[k]] == Runnable && forall i :: 0 <= i < k ==> m.state[l[i]] != Runnable
  }

  ghost predicate NothingIn(m: Machine, a: nat)
    requires |m.state| == |m.next|
  {
    a < |m.heads| && exists l :: List(m.next, m.heads[a], l) && forall i :: 0 <= i < |l| ==> m.state[l[i]] != Runnable
  }

  // ---- Steps ----

  predicate Shape(m: Machine) {
    && |m.heads| == PRIO_MAX
    && |m.next| == |m.prio| == |m.pid| == |m.state| == |m.parent| == |m.life| == |m.calls|
  }

  /** prio_set's walk from p up to the caller. */
  ghost predicate Descends(m: Machine, p: nat, c: nat) {
    exists path: seq<nat> :: |path| > 0 && path[0] == p && path[|path| - 1] == c
      && forall i :: 0 <= i < |path| - 1 ==> path[i] < |m.parent| && m.parent[path[i]] == Some(path[i + 1])
  }

  predicate Busy(st: State) {
    st == Runnable || st == Running || st == Sleeping
  }

  /** A running process that is not inside prio_set. */
  predicate Acts(m: Machine, p: nat)
    requires Shape(m)
  {
    p < |m.next| && m.state[p] == Running && m.life[p] == Live && m.calls[p] == NoCall
  }

  /** The parents after p's children have been given to heir. */
  function Orphaned(parent: Links, p: nat, heir: nat): (r: Links)
    ensures |r| == |parent|
  {
    seq(|parent|, i requires 0 <= i < |parent| => if parent[i] == Some(p) then Some(heir) else parent[i])
  }

  ghost predicate Schedules(m: Machine, b: nat, c: nat, m': Machine)
    requires Shape(m)
  {
    && b < PRIO_MAX && c < |m.next| && Dequeues(m, b, c, m'.heads, m'.next)
    && m' == m.(heads := m'.heads, next := m'.next, state := m.state[c := Running])
  }

  ghost predicate Rotates(m: Machine, b: nat, c: nat, m': Machine)
    requires Shape(m)
  {
    && b < PRIO_MAX && c < |m.next| && Dequeues(m, b, c, m'.heads, m'.next)
    && m' == m.(heads := m'.heads, next := m'.next)
  }

  /** The remove_node system call for a priority outside the queue and other than -1. */
  predicate Strays(e: Event) {
    e.Leave? && !(-1 <= e.level < PRIO_MAX)
  }

  /** The system call: what lies beyond the queue is not part of the model, only that it is taken for a list. */
  ghost predicate Leaves(m: Machine, id: int, level: int, m': Machine) {
    if 0 <= level < PRIO_MAX then
      Unlinks(m, level, id, m'.heads, m'.next) && m' == m.(heads := m'.heads, next := m'.next)
    else
      m' == m.(astray := m.astray || level != -1)
  }

  ghost predicate Step(m: Machine, e: Event, m': Machine) {
    && Shape(m)
    && match e
       case Boot(p) =>
         && p < |m.next| && m.nextpid == 1 && m.state[p] == Unused
         && m' == m.(pid := m.pid[p := 1], nextpid := 2, prio := m.prio[p := 0], state := m.state[p := Runnable],
                     life := m.life[p := Live], heads := m.heads[0 := Some(p)],
                       next := EnqueueNext(m.heads, m.next, p, 0))
       case Alloc(p) =>
         && p < |m.next| && m.nextpid > 1 && m.state[p] == Unused
         && m' == m.(pid := m.pid[p := m.nextpid], nextpid := m.nextpid + 1, state := m.state[p := Embryo],
            life := m.life[p := Born])
       case AllocFails(p) =>
         && p < |m.next| && m.life[p] == Born && m.parent[p] == None
         && m' == m.(state := m.state[p := Unused], life := m.life[p := Free])
       case Adopt(p, q) =>
         && p < |m.next| && m.life[p] == Born && m.parent[p] == None && Acts(m, q)
         && m' == m.(parent := m.parent[p := Some(q)], prio := m.prio[p := if m.pid[p] == 2 then 5 else m.prio[q]])
       case ForkEnqueue(p) =>
         && p < |m.next| && m.life[p] == Born && m.parent[p] != None && m.prio[p] < PRIO_MAX
         && m' == m.(life := m.life[p := Live], heads := m.heads[m.prio[p] := Some(p)],
                     next := EnqueueNext(m.heads, m.next, p, m.prio[p]))
       case Ready(p) =>
         && p < |m.next| && m.life[p] == Live && m.state[p] == Embryo && m' == m.(state := m.state[p := Runnable])
       case Schedule =>
         exists b: nat, c: nat :: Schedules(m, b, c, m')
       case Rotate =>
         exists b: nat, c: nat :: Rotates(m, b, c, m')
       case SetState(p, st) =>
         && p < |m.next| && Busy(m.state[p]) && m.life[p] == Live && Busy(st)
         && m' == m.(state := m.state[p := st])
       case Leave(p, id, level) =>
         Acts(m, p) && Leaves(m, id, level, m')
       case ExitUnlink(p, heir) =>
         && Acts(m, p) && heir < |m.next| && Removes(m, p, m'.heads, m'.next)
         && m' == m.(heads := m'.heads, next := m'.next, life := m.life[p := Dead],
            parent := Orphaned(m.parent, p, heir))
       case ExitDone(p) =>
         && p < |m.next| && m.life[p] == Dead && m.state[p] == Running && m' == m.(state := m.state[p := Zombie])
       case Reap(p, q) =>
         && Acts(m, q) && p < |m.next| && m.state[p] == Zombie && m.parent[p] == Some(q)
         && m' == m.(pid := m.pid[p := 0], parent := m.parent[p := None], state := m.state[p := Unused],
                     prio := m.prio[p := UNSET], life := m.life[p := Free])
       case PrioFind(c, p, target, pr) =>
         && Acts(m, c) && p < |m.next| && m.pid[p] == target && m.prio[c] <= pr < PRIO_MAX && Descends(m, p, c)
         && m' == m.(calls := m.calls[c := Found(p, pr)])
       case PrioUnlink(c) =>
         && c < |m.calls| && m.calls[c].Found? && m.calls[c].p < |m.next|
         && Removes(m, m.calls[c].p, m'.heads, m'.next)
         && m' == m.(heads := m'.heads, next := m'.next, calls := m.calls[c := Unlinked(m.calls[c].p, m.calls[c].pr)])
       case PrioAssign(c) =>
         && c < |m.calls| && m.calls[c].Unlinked? && m.calls[c].p < |m.next|
         && m' == m.(prio := m.prio[m.calls[c].p := m.calls[c].pr],
            calls := m.calls[c := Assigned(m.calls[c].p, m.calls[c].pr)])
       case PrioEnqueue(c) =>
         && c < |m.calls| && m.calls[c].Assigned? && m.calls[c].p < |m.next| && m.calls[c].pr < PRIO_MAX
         && m' == m.(heads := m.heads[m.calls[c].pr := Some(m.calls[c].p)],
                     next := EnqueueNext(m.heads, m.next, m.calls[c].p, m.calls[c].pr), calls := m.calls[c := NoCall])
  }

  // ---- What every step keeps ----

  predicate SlotOk(m: Machine, p: nat)
    requires Shape(m) && p < |m.next|
  {
    && (m.life[p] == Free <==> m.state[p] == Unused) && (m.life[p] == Free ==> m.parent[p] == None)
    && (m.life[p] == Born ==> m.state[p] == Embryo && (m.parent[p] != None ==> m.prio[p] < PRIO_MAX))
    && (m.life[p] == Live ==> (m.state[p] == Embryo || Busy(m.state[p])) && m.prio[p] < PRIO_MAX)
    && (m.life[p] == Dead ==> (m.state[p] == Running || m.state[p] == Zombie) && m.prio[p] < PRIO_MAX)
    && (m.life[p] != Free ==> m.pid[p] != 0) && m.pid[p] < m.nextpid
    && (m.calls[p] != NoCall ==> m.calls[p].p < |m.next| && m.calls[p].pr < PRIO_MAX)
  }

  /** The process table, apart from the lists. */
  ghost predicate TableOk(m: Machine) {
    Shape(m) && UniquePids(m.pid) && m.nextpid > 0 && forall p: nat :: p < |m.next| ==> SlotOk(m, p)
  }

  /** Whoever is in a list is between fork's enqueue and exit's removal. */
  ghost predicate MembersLive(m: Machine, bs: seq<seq<nat>>)
    requires Shape(m)
  {
    forall b: nat, p: nat :: b < |bs| && p in bs[b] ==> p < |m.life| && m.life[p] == Live
  }

  /** The queue is intact: well-formed lists of live processes. In particular a free slot is in no list. */
  ghost predicate Intact(m: Machine, bs: seq<seq<nat>>) {
    Shape(m) && WellFormed(m, bs) && MembersLive(m, bs)
  }

  ghost predicate Good(m: Machine) {
    TableOk(m) && !m.astray && exists bs :: Intact(m, bs)
  }

  ghost predicate InQueue(m: Machine, p: nat) {
    exists bs, b: nat :: WellFormed(m, bs) && b < |bs| && p in bs[b]
  }

  lemma InQueueIs(m: Machine, bs: seq<seq<nat>>, p: nat)
    requires Shape(m) && WellFormed(m, bs) && p < |m.prio|
    ensures InQueue(m, p) <==> m.prio[p] < PRIO_MAX && p in bs[m.prio[p]]
    ensures InQueue(m, p) <==> exists b: nat :: b < |bs| && p in bs[b]
  {
    if InQueue(m, p) {
      var bs', b: nat :| WellFormed(m, bs') && b < |bs'| && p in bs'[b];
      BucketsUnique(m, bs, bs');
      BucketFacts(m.heads, m.next, m.prio, bs, {}, b);
    }
  }

  lemma UnlinksShape(m: Machine, b: nat, pid: int, heads': Links, next': Links)
    requires Unlinks(m, b, pid, heads', next')
    ensures |heads'| == |m.heads| && |next'| == |m.next|
  {
  }

  lemma RemovesShape(m: Machine, p: nat, heads': Links, next': Links)
    requires Removes(m, p, heads', next')
    ensures |heads'| == |m.heads| && |next'| == |m.next|
  {
    if m.prio[p] != UNSET {
      UnlinksShape(m, m.prio[p], m.pid[p], heads', next');
    }
  }

  lemma StepShape(m: Machine, e: Event, m': Machine)
    requires Step(m, e, m')
    ensures Shape(m) && Shape(m') && |m'.next| == |m.next| && (m'.astray <==> m.astray || Strays(e))
    ensures e.Schedule? ==> exists c: nat :: c < |m.next| && m.state[c] == Runnable && m'.state == m.state[c := Running]
                              && m'.life == m.life && m'.prio == m.prio && m'.pid == m.pid && m'.parent == m.parent
                              && m'.calls == m.calls && m'.nextpid == m.nextpid
  {
    if e.Leave? && 0 <= e.level < PRIO_MAX {
      UnlinksShape(m, e.level, e.id, m'.heads, m'.next);
    } else if e.ExitUnlink? {
      RemovesShape(m, e.p, m'.heads, m'.next);
    } else if e.PrioUnlink? {
      RemovesShape(m, m.calls[e.c].p, m'.heads, m'.next);
    }
    hide Removes, Unlinks;
  }

  predicate PrioEvent(e: Event) {
    e.PrioFind? || e.PrioUnlink? || e.PrioAssign? || e.PrioEnqueue?
  }

  lemma StepKeepsSlot(m: Machine, e: Event, m': Machine, p: nat)
    requires TableOk(m) && Step(m, e, m') && p < |m.next|
    ensures Shape(m') && |m'.next| == |m.next| && SlotOk(m', p)
  {
    StepShape(m, e, m');
    if PrioEvent(e) {
      assert SlotOk(m, e.c) && SlotOk(m, p);
      hide TableOk;
      PrioKeepsSlot(m, e, m', p);
    } else {
      assert SlotOk(m, p);
      if e.Adopt? {
        assert SlotOk(m, e.q);
      }
      hide TableOk;
      LifeKeepsSlot(m, e, m', p);
    }
  }

  lemma PrioKeepsSlot(m: Machine, e: Event, m': Machine, p: nat)
    requires Step(m, e, m') && PrioEvent(e) && Shape(m') && p < |m.next| == |m'.next|
    requires e.c < |m.next| && SlotOk(m, e.c) && SlotOk(m, p)
    ensures SlotOk(m', p)
  {
    hide Removes, Unlinks, Dequeues, Descends, EnqueueNext;
  }

  /** The events from boot or fork up to the process being ready. */
  predicate BirthEvent(e: Event) {
    e.Boot? || e.Alloc? || e.AllocFails? || e.Adopt? || e.ForkEnqueue? || e.Ready?
  }

  lemma BirthKeepsSlot(m: Machine, e: Event, m': Machine, p: nat)
    requires Step(m, e, m') && BirthEvent(e) && Shape(m') && p < |m.next| == |m'.next| && SlotOk(m, p)
    requires e.Adopt? ==> e.q < |m.next| && SlotOk(m, e.q)
    ensures SlotOk(m', p)
  {
    hide Removes, Unlinks, Dequeues, Descends, EnqueueNext, Schedules;
    assert m'.calls == m.calls;
  }

  lemma LifeKeepsSlot(m: Machine, e: Event, m': Machine, p: nat)
    requires Step(m, e, m') && !PrioEvent(e) && Shape(m') && p < |m.next| == |m'.next| && SlotOk(m, p)
    requires e.Adopt? ==> e.q < |m.next| && SlotOk(m, e.q)
    ensures SlotOk(m', p)
  {
    hide Removes, Unlinks, Dequeues, Descends, EnqueueNext, Schedules;
    if BirthEvent(e) {
      BirthKeepsSlot(m, e, m', p);
      hide Step;
    } else if e.Schedule? {
      StepShape(m, e, m');
      hide Step;
    } else if e.Leave? || e.ExitUnlink? || e.ExitDone? || e.Reap? {
      assert m'.prio == m.prio || e.Reap?;
    }
  }

  lemma StepKeepsTable(m: Machine, e: Event, m': Machine)
    requires TableOk(m) && Step(m, e, m')
    ensures TableOk(m')
  {
    StepShape(m, e, m');
    forall p: nat | p < |m'.next|
      ensures SlotOk(m', p)
    {
      StepKeepsSlot(m, e, m', p);
    }
    FreshPid(m, e, m');
    hide SlotOk, Step;
  }

  lemma FreshPid(m: Machine, e: Event, m': Machine)
    requires TableOk(m) && Step(m, e, m')
    ensures UniquePids(m'.pid) && m'.nextpid > 0
  {
    StepShape(m, e, m');
    hide Removes, Unlinks, Dequeues, Descends, EnqueueNext;
    forall p, q | 0 <= p < |m'.pid| && 0 <= q < |m'.pid| && m'.pid[p] == m'.pid[q] && m'.pid[p] != 0
      ensures p == q
    {
      assert SlotOk(m, p) && SlotOk(m, q);
    }
  }

  // ---- The lists under each kind of store ----

  predicate InNone(bs: seq<seq<nat>>, p: nat) {
    forall b: nat :: b < |bs| ==> p !in bs[b]
  }

  lemma PriorityOutside(heads: Links, next: Links, prio: seq<nat>, bs: seq<seq<nat>>, p: nat, v: nat)
    requires Threads(heads, next, prio, bs, {}) && p < |prio| && InNone(bs, p)
    ensures Threads(heads, next, prio[p := v], bs, {})
  {
    forall b: nat {:trigger bs[b]} | b < PRIO_MAX
      ensures Bucket(heads, next, prio[p := v], b, bs[b])
    {
      BucketFacts(heads, next, prio, bs, {}, b);
      forall k | 0 <= k < |bs[b]|
        ensures bs[b][k] != p
      {
        assert bs[b][k] in bs[b];
      }
    }
  }

  lemma EnqueueFresh(heads: Links, next: Links, prio: seq<nat>, bs: seq<seq<nat>>, p: nat)
    requires Threads(heads, next, prio, bs, {}) && p < |prio| && InNone(bs, p) && prio[p] < PRIO_MAX
    ensures Threads(heads[prio[p] := Some(p)], EnqueueNext(heads, next, p, prio[p]), prio,
              bs[prio[p] := [p] + bs[prio[p]]], {})
  {
    EnqueueThreads(heads, next, prio, bs, p);
    if heads[prio[p]] == None {
      assert next[p := None] == next;
    }
  }

  /** Only the process with the pid leaves its list. */
  lemma UnlinkIntact(m: Machine, bs: seq<seq<nat>>, b: nat, pid: int, heads': Links, next': Links)
    returns (bs': seq<seq<nat>>)
    requires TableOk(m) && Intact(m, bs) && b < PRIO_MAX && Unlinks(m, b, pid, heads', next')
    ensures Threads(heads', next', m.prio, bs', {}) && Within(bs', bs)
    ensures forall p: nat :: p < |m.next| && m.pid[p] == pid && m.prio[p] == b ==> bs' == Removed(bs, b, p)
  {
    BucketFacts(m.heads, m.next, m.prio, bs, {}, b);
    var l :| List(m.next, m.heads[b], l) && UnlinksFrom(m, b, pid, l, heads', next');
    ListUnique(m.next, m.heads[b], l, bs[b]);
    if NoPid(m, l, |l|, pid) {
      bs' := bs;
      hide Threads;
    } else {
      var k: nat :| k < |l| && m.pid[l[k]] == pid && next' == SkipLink(m.next, l, k)[l[k] := None]
        && heads' == if k == 0 then m.heads[b := m.next[l[0]]] else m.heads;
      assert l[k] in bs[b] && SlotOk(m, l[k]);
      hide Unlinks, UnlinksFrom, Threads, SlotOk;
      bs' := bs[b := Without(l, k)];
      RemovedAt(m.heads, m.next, m.prio, bs, b, k);
      RemovedUnique(m, bs, b, k);
    }
  }

  lemma RemovedUnique(m: Machine, bs: seq<seq<nat>>, b: nat, k: nat)
    requires Shape(m) && UniquePids(m.pid) && WellFormed(m, bs) && b < PRIO_MAX && k < |bs[b]| && bs[b][k] < |m.next|
    requires m.pid[bs[b][k]] != 0
    ensures forall p: nat :: p < |m.next| && m.pid[p] == m.pid[bs[b][k]] ==>
              Removed(bs, b, p) == bs[b := Without(bs[b], k)]
  {
    BucketFacts(m.heads, m.next, m.prio, bs, {}, b);
    assert bs[b][k] in bs[b];
  }

  ghost predicate Within(bs': seq<seq<nat>>, bs: seq<seq<nat>>) {
    |bs'| == |bs| && forall b: nat, q: nat :: b < |bs'| && q in bs'[b] ==> q in bs[b]
  }

  lemma RemovedAt(heads: Links, next: Links, prio: seq<nat>, bs: seq<seq<nat>>, b: nat, k: nat)
    requires Threads(heads, next, prio, bs, {}) && b < PRIO_MAX && k < |bs[b]|
    ensures var l, bs' := bs[b], bs[b := Without(bs[b], k)];
            && (forall i :: 0 <= i < |l| ==> l[i] < |next|)
            && Threads(if k == 0 then heads[b := next[l[0]]]
               else heads, SkipLink(next, l, k)[l[k] := None], prio, bs', {})
            && InNone(bs', l[k]) && Within(bs', bs)
  {
    var l, bs' := bs[b], bs[b := Without(bs[b], k)];
    DropThreads(heads, next, prio, bs, b, k);
    assert heads[b := heads[b]] == heads;
    BucketFacts(heads, next, prio, bs, {}, b);
    WithoutMembers(l, k);
    forall c: nat | c < |bs'|
      ensures l[k] !in bs'[c]
    {
      if c != b {
        BucketFacts(heads, next, prio, bs, {}, c);
      }
    }
  }

  /** What remove_node took out is in no list. */
  lemma RemovedInNone(m: Machine, bs: seq<seq<nat>>, p: nat)
    requires Shape(m) && WellFormed(m, bs) && p < |m.next| && m.prio[p] < PRIO_MAX
    ensures InNone(Removed(bs, m.prio[p], p), p)
  {
    var b := m.prio[p];
    BucketFacts(m.heads, m.next, m.prio, bs, {}, b);
    forall c: nat | c < |bs| && c != b
      ensures p !in bs[c]
    {
      BucketFacts(m.heads, m.next, m.prio, bs, {}, c);
    }
    if p in bs[b] {
      var k: nat :| k < |bs[b]| && bs[b][k] == p && Removed(bs, b, p) == bs[b := Without(bs[b], k)];
      RemovedAt(m.heads, m.next, m.prio, bs, b, k);
    }
  }

  /** The lists after remove_node(p). */
  ghost function AfterRemove(m: Machine, bs: seq<seq<nat>>, p: nat): seq<seq<nat>>
    requires p < |m.prio| && |bs| == PRIO_MAX
  {
    if m.prio[p] < PRIO_MAX then Removed(bs, m.prio[p], p) else bs
  }

  lemma DequeueIntact(m: Machine, bs: seq<seq<nat>>, b: nat, c: nat, heads': Links, next': Links)
    returns (bs': seq<seq<nat>>)
    requires Shape(m) && WellFormed(m, bs) && b < PRIO_MAX && Dequeues(m, b, c, heads', next')
    ensures Threads(heads', next', m.prio, bs', {}) && Within(bs', bs)
  {
    BucketFacts(m.heads, m.next, m.prio, bs, {}, b);
    var l, k: nat :| DequeuesAt(m, b, c, l, k, heads', next');
    ListUnique(m.next, m.heads[b], l, bs[b]);
    hide Threads, Dequeues, Turned, Chain;
    bs' := bs[b := Rotated(l, k)];
    RotatedAt(m.heads, m.next, m.prio, bs, b, k);
    RotatedWithin(bs, b, k);
  }

  lemma RotatedWithin(bs: seq<seq<nat>>, b: nat, k: nat)
    requires b < |bs| && k < |bs[b]| && Distinct(bs[b])
    ensures Within(bs[b := Rotated(bs[b], k)], bs)
  {
    RotatedMembers(bs[b], k);
  }

  lemma RotatedAt(heads: Links, next: Links, prio: seq<nat>, bs: seq<seq<nat>>, b: nat, k: nat)
    requires Threads(heads, next, prio, bs, {}) && b < PRIO_MAX && k < |bs[b]|
    ensures Chain(next, bs[b])
    ensures var (heads', next') := Turned(heads, next, bs[b], k, b);
            Threads(heads', next', prio, bs[b := Rotated(bs[b], k)], {})
  {
    var l := bs[b];
    BucketFacts(heads, next, prio, bs, {}, b);
    RotatedMembers(l, k);
    assert prio[l[k]] == b;
    hide Threads, Bucket, SkipLink, TailLink, Chain, Distinct, OfPriority, Head, Without;
    UnlinkThreads(heads, next, prio, bs, b, k);
    var heads1, next1, bs1 := heads[b := Head(Without(l, k))], SkipLink(next, l, k), bs[b := Without(l, k)];
    AppendThreads(heads1, next1, prio, bs1, b, l[k]);
    UpdateTwice(bs, b, Without(l, k), Rotated(l, k));
    UpdateTwice(heads, b, Head(Without(l, k)), Head(Rotated(l, k)));
  }

  lemma UpdateTwice<T>(s: seq<T>, i: nat, x: T, y: T)
    requires i < |s|
    ensures s[i := x][i := y] == s[i := y]
  {
  }

  // ---- Exactly which steps damage the queue ----

  /**
   * The remove_node system call is given a priority outside the queue; or prio_set stores a new priority into a
   * process that is in a list, or enqueues one that is not live, is in a list already, or has meanwhile been given
   * another priority.
   */
  ghost predicate Damages(m: Machine, e: Event) {
    && Shape(m)
    && match e
       case PrioAssign(c) =>
         && c < |m.calls| && m.calls[c].Unlinked? && m.calls[c].p < |m.next|
         && InQueue(m, m.calls[c].p) && m.prio[m.calls[c].p] != m.calls[c].pr
       case PrioEnqueue(c) =>
         && c < |m.calls| && m.calls[c].Assigned? && m.calls[c].p < |m.next|
         && !(m.life[m.calls[c].p] == Live && !InQueue(m, m.calls[c].p) && m.prio[m.calls[c].p] == m.calls[c].pr)
       case Leave(p, id, level) => !(-1 <= level < PRIO_MAX)
       case _ => false
  }

  lemma NotLiveNotIn(m: Machine, bs: seq<seq<nat>>, p: nat)
    requires Intact(m, bs) && p < |m.life| && m.life[p] != Live
    ensures InNone(bs, p)
  {
  }

  lemma NotInQueueInNone(m: Machine, bs: seq<seq<nat>>, p: nat)
    requires Intact(m, bs) && p < |m.life|
    ensures InQueue(m, p) <==> !InNone(bs, p)
  {
    InQueueIs(m, bs, p);
  }

  /** The same lists, possibly of fewer processes, none of which stops being live. */
  lemma SameMembers(m: Machine, bs: seq<seq<nat>>, m': Machine, bs': seq<seq<nat>>)
    requires Intact(m, bs) && Shape(m') && WellFormed(m', bs') && Within(bs', bs) && |m'.life| == |m.life|
    requires forall p: nat :: p < |m.life| && m.life[p] == Live && m'.life[p] != Live ==> InNone(bs', p)
    ensures Intact(m', bs')
  {
  }

  lemma OneMoreMember(m: Machine, bs: seq<seq<nat>>, m': Machine, b: nat, p: nat)
    requires Intact(m, bs) && Shape(m') && b < |bs| && WellFormed(m', bs[b := [p] + bs[b]]) && |m'.life| == |m.life|
    requires p < |m'.life| && m'.life == m.life[p := Live]
    ensures Intact(m', bs[b := [p] + bs[b]])
  {
  }

  /** The steps that only concern the process table. */
  predicate TableOnly(e: Event) {
    e.Alloc? || e.AllocFails? || e.Ready? || e.SetState? || e.ExitDone? || e.PrioFind?
  }

  lemma TableStepIntact(m: Machine, e: Event, m': Machine, bs: seq<seq<nat>>)
    requires TableOk(m) && Intact(m, bs) && Step(m, e, m') && TableOnly(e)
    ensures Intact(m', bs)
  {
    StepShape(m, e, m');
    if !e.PrioFind? {
      assert SlotOk(m, e.p);
    }
    hide Descends, Threads, Removes, Dequeues;
    SameMembers(m, bs, m', bs);
  }

  lemma ForkIntact(m: Machine, e: Event, m': Machine, bs: seq<seq<nat>>) returns (bs': seq<seq<nat>>)
    requires TableOk(m) && Intact(m, bs) && Step(m, e, m') && (e.Boot? || e.Adopt? || e.ForkEnqueue? || e.Reap?)
    ensures Intact(m', bs')
  {
    StepShape(m, e, m');
    assert SlotOk(m, e.p);
    NotLiveNotIn(m, bs, e.p);
    hide Threads, Removes, Dequeues, SlotOk;
    if e.Boot? {
      PriorityOutside(m.heads, m.next, m.prio, bs, e.p, 0);
      EnqueueFresh(m.heads, m.next, m.prio[e.p := 0], bs, e.p);
      bs' := bs[0 := [e.p] + bs[0]];
      OneMoreMember(m, bs, m', 0, e.p);
    } else if e.ForkEnqueue? {
      EnqueueFresh(m.heads, m.next, m.prio, bs, e.p);
      bs' := bs[m.prio[e.p] := [e.p] + bs[m.prio[e.p]]];
      OneMoreMember(m, bs, m', m.prio[e.p], e.p);
    } else {
      PriorityOutside(m.heads, m.next, m.prio, bs, e.p, m'.prio[e.p]);
      bs' := bs;
      SameMembers(m, bs, m', bs);
    }
  }

  lemma ListStepIntact(m: Machine, e: Event, m': Machine, bs: seq<seq<nat>>) returns (bs': seq<seq<nat>>)
    requires TableOk(m) && Intact(m, bs) && Step(m, e, m')
    requires e.Schedule? || e.Rotate? || e.ExitUnlink? || e.PrioUnlink? || (e.Leave? && 0 <= e.level < PRIO_MAX)
    ensures Intact(m', bs')
  {
    StepShape(m, e, m');
    if e.Schedule? {
      var b: nat, c: nat :| Schedules(m, b, c, m');
      bs' := DequeueIntact(m, bs, b, c, m'.heads, m'.next);
    } else if e.Rotate? {
      var b: nat, c: nat :| Rotates(m, b, c, m');
      bs' := DequeueIntact(m, bs, b, c, m'.heads, m'.next);
    } else if e.Leave? {
      bs' := UnlinkIntact(m, bs, e.level, e.id, m'.heads, m'.next);
    } else {
      var p := if e.PrioUnlink? then m.calls[e.c].p else e.p;
      RemoveIntact(m, bs, p, m'.heads, m'.next);
      bs' := AfterRemove(m, bs, p);
    }
    hide Threads, Removes, Unlinks, Dequeues, TableOk, Intact, AfterRemove;
    SameMembers(m, bs, m', bs');
  }

  /** remove_node, also of a slot that wait has freed. */
  lemma RemoveIntact(m: Machine, bs: seq<seq<nat>>, p: nat, heads': Links, next': Links)
    requires TableOk(m) && Intact(m, bs) && p < |m.next| && Removes(m, p, heads', next')
    ensures |bs| == PRIO_MAX && Threads(heads', next', m.prio, AfterRemove(m, bs, p), {})
    ensures InNone(AfterRemove(m, bs, p), p) && Within(AfterRemove(m, bs, p), bs)
  {
    if m.prio[p] == UNSET {
      UnsetInNone(m, bs, p);
    } else {
      var bs' := UnlinkIntact(m, bs, m.prio[p], m.pid[p], heads', next');
      RemovedInNone(m, bs, p);
    }
  }

  lemma UnsetInNone(m: Machine, bs: seq<seq<nat>>, p: nat)
    requires Shape(m) && WellFormed(m, bs) && p < |m.next| && m.prio[p] == UNSET
    ensures InNone(bs, p)
  {
    forall c: nat | c < |bs|
      ensures p !in bs[c]
    {
      BucketFacts(m.heads, m.next, m.prio, bs, {}, c);
    }
  }

  lemma AssignExactly(m: Machine, c: nat, m': Machine)
    requires Good(m) && Step(m, PrioAssign(c), m')
    ensures (exists bs :: Intact(m', bs)) <==> !Damages(m, PrioAssign(c))
  {
    var p, pr := m.calls[c].p, m.calls[c].pr;
    var bs :| Intact(m, bs);
    NotInQueueInNone(m, bs, p);
    if InNone(bs, p) {
      PriorityOutside(m.heads, m.next, m.prio, bs, p, pr);
      assert Intact(m', bs);
    } else if m.prio[p] == pr {
      assert m.prio[p := pr] == m.prio;
      assert Intact(m', bs);
    } else {
      forall bs' | Intact(m', bs')
        ensures false
      {
        StrayPriority(m, bs, m', p, bs');
      }
    }
  }

  /** With the links as they were, p is still in the list of its old priority. */
  lemma StrayPriority(m: Machine, bs: seq<seq<nat>>, m': Machine, p: nat, bs': seq<seq<nat>>)
    requires Shape(m) && WellFormed(m, bs) && p < |m.prio| && m.prio[p] < PRIO_MAX && p in bs[m.prio[p]]
    requires m'.heads == m.heads && m'.next == m.next && |m'.prio| == |m.prio| && m'.prio[p] != m.prio[p]
    ensures !WellFormed(m', bs')
  {
    if WellFormed(m', bs') {
      var b := m.prio[p];
      BucketFacts(m.heads, m.next, m.prio, bs, {}, b);
      BucketFacts(m'.heads, m'.next, m'.prio, bs', {}, b);
      ListUnique(m.next, m.heads[b], bs[b], bs'[b]);
    }
  }

  lemma EnqueueExactly(m: Machine, c: nat, m': Machine)
    requires Good(m) && Step(m, PrioEnqueue(c), m')
    ensures (exists bs :: Intact(m', bs)) <==> !Damages(m, PrioEnqueue(c))
  {
    var p, pr := m.calls[c].p, m.calls[c].pr;
    var bs :| Intact(m, bs);
    NotInQueueInNone(m, bs, p);
    InQueueIs(m, bs, p);
    if m.life[p] == Live && InNone(bs, p) && m.prio[p] == pr {
      EnqueueFresh(m.heads, m.next, m.prio, bs, p);
      assert m.life[p := Live] == m.life;
      OneMoreMember(m, bs, m', pr, p);
    } else {
      forall bs' | Intact(m', bs')
        ensures false
      {
        HeadIs(m', bs', p, pr);
        if m.prio[p] == pr && !InNone(bs, p) {
          EnqueueTwice(m.heads, m.next, m.prio, bs, p, bs');
        }
      }
    }
  }

  /** At priority -1 the system call finds nothing; elsewhere outside the queue it goes astray. */
  lemma LeaveOutside(m: Machine, e: Event, m': Machine, bs: seq<seq<nat>>)
    requires Intact(m, bs) && Step(m, e, m') && e.Leave? && !(0 <= e.level < PRIO_MAX)
    ensures Intact(m', bs)
  {
    assert m' == m.(astray := m'.astray);
    hide Step, Threads;
  }

  lemma HeadIs(m: Machine, bs: seq<seq<nat>>, p: nat, b: nat)
    requires Intact(m, bs) && b < PRIO_MAX && m.heads[b] == Some(p)
    ensures p < |m.prio| && m.prio[p] == b && m.life[p] == Live
  {
    BucketFacts(m.heads, m.next, m.prio, bs, {}, b);
    assert bs[b][0] in bs[b];
  }

  /**
   * Every step of fork, exit, wait, the scheduler and the system calls keeps the queue intact, if and only if it is
   * not one of those that Damages names.
   */
  lemma StepKeepsExactly(m: Machine, e: Event, m': Machine)
    requires Good(m) && Step(m, e, m')
    ensures Good(m') <==> !Damages(m, e)
  {
    hide Step, Intact, TableOk;
    StepKeepsTable(m, e, m');
    StepShape(m, e, m');
    if e.PrioAssign? {
      AssignExactly(m, e.c, m');
    } else if e.PrioEnqueue? {
      EnqueueExactly(m, e.c, m');
    } else {
      var bs :| Intact(m, bs);
      var bs' := OtherStepIntact(m, e, m', bs);
      assert Intact(m', bs');
    }
  }

  /** All steps but the stores of prio_set leave well-formed lists of live processes. */
  lemma OtherStepIntact(m: Machine, e: Event, m': Machine, bs: seq<seq<nat>>) returns (bs': seq<seq<nat>>)
    requires TableOk(m) && Intact(m, bs) && Step(m, e, m') && !e.PrioAssign? && !e.PrioEnqueue?
    ensures Intact(m', bs')
  {
    hide Step, Intact, TableOk;
    bs' := bs;
    if TableOnly(e) {
      TableStepIntact(m, e, m', bs);
    } else if e.Leave? && !(0 <= e.level < PRIO_MAX) {
      LeaveOutside(m, e, m', bs);
    } else if e.Schedule? || e.Rotate? || e.Leave? || e.ExitUnlink? || e.PrioUnlink? {
      bs' := ListStepIntact(m, e, m', bs);
    } else {
      bs' := ForkIntact(m, e, m', bs);
    }
  }

  // ---- Whole runs ----

  predicate Initial(m: Machine) {
    && Shape(m) && m.nextpid == 1 && (forall b :: 0 <= b < PRIO_MAX ==> m.heads[b] == None)
    && !m.astray
    && forall p: nat :: p < |m.next| ==>
         && m.next[p] == None && m.pid[p] == 0 && m.state[p] == Unused && m.parent[p] == None
         && m.life[p] == Free && m.calls[p] == NoCall
  }

  lemma InitialIsGood(m: Machine)
    requires Initial(m)
    ensures Good(m)
  {
    var bs: seq<seq<nat>> := seq(PRIO_MAX, _ => []);
    assert WellFormed(m, bs);
    assert Intact(m, bs);
  }

  ghost predicate Execution(states: seq<Machine>, events: seq<Event>) {
    && |states| == |events| + 1 && Initial(states[0])
    && forall i :: 0 <= i < |events| ==> Step(states[i], events[i], states[i + 1])
  }

  /** The queue is intact throughout a run if and only if no step in it is one of the damaging ones. */
  lemma IntactThroughout(states: seq<Machine>, events: seq<Event>)
    requires Execution(states, events)
    ensures (forall i :: 0 <= i < |states| ==> Good(states[i])) <==>
            (forall i :: 0 <= i < |events| ==> !Damages(states[i], events[i]))
  {
    if forall i :: 0 <= i < |states| ==> Good(states[i]) {
      forall i | 0 <= i < |events|
        ensures !Damages(states[i], events[i])
      {
        assert Step(states[i], events[i], states[i + 1]) && Good(states[i]) && Good(states[i + 1]);
        StepKeepsExactly(states[i], events[i], states[i + 1]);
      }
    } else if forall i :: 0 <= i < |events| ==> !Damages(states[i], events[i]) {
      forall i | 0 <= i < |states|
        ensures Good(states[i])
      {
        IntactUpTo(states, events, i);
      }
    }
  }

  lemma {:induction false} IntactUpTo(states: seq<Machine>, events: seq<Event>, i: nat)
    requires Execution(states, events) && i < |states| &&
             forall j :: 0 <= j < |events| ==> !Damages(states[j], events[j])
    ensures Good(states[i])
    decreases i
  {
    if i == 0 {
      InitialIsGood(states[0]);
    } else {
      IntactUpTo(states, events, i - 1);
      assert Step(states[i - 1], events[i - 1], states[i]) && !Damages(states[i - 1], events[i - 1]);
      StepKeepsExactly(states[i - 1], events[i - 1], states[i]);
    }
  }

  /** A slot that is free, being forked or exiting is in no list of an intact queue. */
  lemma FreeSlotsUnlisted(m: Machine, p: nat)
    requires Good(m) && p < |m.next| && m.life[p] != Live
    ensures !InQueue(m, p) && m.next[p] == None
  {
    var bs :| Intact(m, bs);
    assert SlotOk(m, p);
    NotInQueueInNone(m, bs, p);
    InQueueIs(m, bs, p);
  }

  // ---- prio_set on its own ----

  /** The four steps of a call by c with nothing in between. */
  ghost predicate Alone(m0: Machine, c: nat, p: nat, target: nat, pr: nat, m1: Machine, m2: Machine, m3: Machine,
                        m4: Machine) {
    && Step(m0, PrioFind(c, p, target, pr), m1) && Step(m1, PrioUnlink(c), m2)
    && Step(m2, PrioAssign(c), m3) && Step(m3, PrioEnqueue(c), m4)
  }

  /** Buckets bs with process p moved from bucket b to the head of bucket pr. */
  ghost function Moved(bs: seq<seq<nat>>, p: nat, b: nat, pr: nat): seq<seq<nat>>
    requires |bs| == PRIO_MAX && b < PRIO_MAX && pr < PRIO_MAX
  {
    var rest := Removed(bs, b, p);
    rest[pr := [p] + rest[pr]]
  }

  /** From m to m' process p has moved to the head of the list of priority pr, and nothing else has happened. */
  ghost predicate Moves(m: Machine, m': Machine, p: nat, pr: nat) {
    && p < |m.prio| && m.prio[p] < PRIO_MAX && pr < PRIO_MAX && m'.prio == m.prio[p := pr]
    && forall bs :: Intact(m, bs) ==> |bs| == PRIO_MAX && Intact(m', Moved(bs, p, m.prio[p], pr))
  }

  /**
   * Run alone, prio_set keeps the queue intact if and only if its target is live at the call; then the target alone
   * moves, to the head of the list of its new priority.
   */
  lemma PrioSetExactly(m0: Machine, c: nat, p: nat, target: nat, pr: nat, m1: Machine, m2: Machine, m3: Machine,
                       m4: Machine)
    requires Good(m0) && Alone(m0, c, p, target, pr, m1, m2, m3, m4)
    ensures p < |m0.life| && (Good(m4) <==> m0.life[p] == Live)
    ensures InQueue(m0, p) ==> m0.life[p] == Live
    ensures m0.life[p] == Live ==> Moves(m0, m4, p, pr)
  {
    FindFacts(m0, c, p, target, pr, m1);
    hide Step, Good, Intact, InQueue;
    forall bs | Intact(m0, bs)
      ensures Outcome(m0, m4, p, pr, bs)
    {
      FoundIntact(m0, m1, bs);
      UnlistedEnqueue(m1, c, m2, m3, m4, bs);
      SameOutcome(m0, m1, m4, p, pr, bs);
    }
    SomeIntact(m0);
  }

  /** What the call does to the lists bs. */
  ghost predicate Outcome(m: Machine, m': Machine, p: nat, pr: nat, bs: seq<seq<nat>>) {
    && p < |m.life| == |m.prio| && |bs| == PRIO_MAX && pr < PRIO_MAX && (Good(m') <==> m.life[p] == Live)
    && (m.life[p] == Live ==>
          && m.prio[p] < PRIO_MAX && m'.prio == m.prio[p := pr]
          && Intact(m', Moved(bs, p, m.prio[p], pr)))
  }

  lemma SameOutcome(m: Machine, m1: Machine, m': Machine, p: nat, pr: nat, bs: seq<seq<nat>>)
    requires m1 == m.(calls := m1.calls) && Outcome(m1, m', p, pr, bs)
    ensures Outcome(m, m', p, pr, bs)
  {
  }

  lemma SomeIntact(m: Machine)
    requires Good(m)
    ensures exists bs :: Intact(m, bs)
  {
  }

  lemma FoundIntact(m: Machine, m': Machine, bs: seq<seq<nat>>)
    requires Intact(m, bs) && m' == m.(calls := m'.calls) && |m'.calls| == |m.calls|
    ensures Intact(m', bs)
  {
  }

  lemma FindFacts(m: Machine, c: nat, p: nat, target: nat, pr: nat, m': Machine)
    requires Good(m) && Step(m, PrioFind(c, p, target, pr), m')
    ensures Good(m') && c < |m.calls| == |m'.calls| && m'.calls[c] == Found(p, pr) && p < |m.life|
    ensures m' == m.(calls := m'.calls) && pr < PRIO_MAX
    ensures InQueue(m, p) ==> m.life[p] == Live
  {
    StepKeepsExactly(m, PrioFind(c, p, target, pr), m');
    var bs :| Intact(m, bs);
    NotInQueueInNone(m, bs, p);
    hide Good, Descends, InQueue, WellFormed;
  }

  lemma UnlistedEnqueue(m1: Machine, c: nat, m2: Machine, m3: Machine, m4: Machine, bs: seq<seq<nat>>)
    requires Good(m1) && Intact(m1, bs)
    requires Step(m1, PrioUnlink(c), m2) && Step(m2, PrioAssign(c), m3) && Step(m3, PrioEnqueue(c), m4)
    ensures Outcome(m1, m4, m1.calls[c].p, m1.calls[c].pr, bs)
  {
    hide Removes, Unlinks, Threads;
    var p := m1.calls[c].p;
    var bs2 := UnlinkedIntact(m1, c, m2, m3, bs);
    NotInQueueInNone(m3, bs2, p);
    assert SlotOk(m1, p);
    StepKeepsExactly(m3, PrioEnqueue(c), m4);
    if m1.life[p] == Live {
      EnqueueFresh(m3.heads, m3.next, m3.prio, bs2, p);
      assert m3.life[p := Live] == m3.life;
      OneMoreMember(m3, bs2, m4, m3.prio[p], p);
    }
  }

  lemma UnlinkedIntact(m1: Machine, c: nat, m2: Machine, m3: Machine, bs: seq<seq<nat>>) returns (bs2: seq<seq<nat>>)
    requires Good(m1) && Intact(m1, bs) && Step(m1, PrioUnlink(c), m2) && Step(m2, PrioAssign(c), m3)
    ensures |bs| == PRIO_MAX && Good(m3) && Intact(m3, bs2) && m1.calls[c].p < |m1.prio|
    ensures bs2 == AfterRemove(m1, bs, m1.calls[c].p) && InNone(bs2, m1.calls[c].p)
  {
    var p := m1.calls[c].p;
    StepShape(m1, PrioUnlink(c), m2);
    StepKeepsExactly(m1, PrioUnlink(c), m2);
    RemoveIntact(m1, bs, p, m2.heads, m2.next);
    bs2 := AfterRemove(m1, bs, p);
    assert Intact(m2, bs2) by { SameMembers(m1, bs, m2, bs2); }
    NotInQueueInNone(m2, bs2, p);
    StepKeepsExactly(m2, PrioAssign(c), m3);
    PriorityOutside(m2.heads, m2.next, m2.prio, bs2, p, m3.prio[p]);
    assert Intact(m3, bs2);
  }

  /**
   * Where nobody used the remove_node system call, live means listed, and the condition is that the target is
   * listed.
   */
  lemma PrioSetOnListed(m0: Machine, c: nat, p: nat, target: nat, pr: nat, m1: Machine, m2: Machine, m3: Machine,
                        m4: Machine)
    requires Good(m0) && Alone(m0, c, p, target, pr, m1, m2, m3, m4)
    requires forall q: nat :: q < |m0.life| && m0.life[q] == Live ==> InQueue(m0, q)
    ensures Good(m4) <==> InQueue(m0, p)
  {
    hide Good, Alone, Intact, InQueue, Moved;
    PrioSetExactly(m0, c, p, target, pr, m1, m2, m3, m4);
  }

  /** Of two calls that have both removed the same process, one damages the queue when it enqueues it. */
  lemma TwoCallsDamage(m: Machine, c: nat, d: nat, m1: Machine, m2: Machine)
    requires Good(m) && c != d && c < |m.calls| && d < |m.calls| && m.calls[c].Assigned?
    requires m.calls[d].Assigned? && m.calls[d].p == m.calls[c].p
    requires Step(m, PrioEnqueue(c), m1) && Step(m1, PrioEnqueue(d), m2)
    ensures !Good(m1) || !Good(m2)
  {
    if Good(m1) {
      var p := m.calls[c].p;
      var bs1 :| Intact(m1, bs1);
      HeadIs(m1, bs1, p, m.calls[c].pr);
      BucketFacts(m1.heads, m1.next, m1.prio, bs1, {}, m.calls[c].pr);
      assert p in bs1[m.calls[c].pr];
      InQueueIs(m1, bs1, p);
      StepKeepsExactly(m1, PrioEnqueue(d), m2);
    }
  }

  // ---- Runs that damage the queue ----

  /** sys_prio_set passes its first argument twice; the kernel's own calls are on the caller itself. */
  predicate AsCalled(e: Event) {
    e.PrioFind? ==> e.target == e.pr || e.p == e.c
  }

  ghost predicate Reachable(m: Machine) {
    exists states, events :: Execution(states, events) && states[|states| - 1] == m &&
                             forall i :: 0 <= i < |events| ==> AsCalled(events[i])
  }

  lemma ReachMore(m: Machine, e: Event, m': Machine)
    requires Reachable(m) && Step(m, e, m') && AsCalled(e)
    ensures Reachable(m')
  {
    hide Step, Initial, AsCalled;
    var states, events :| Execution(states, events) && states[|states| - 1] == m &&
      forall i :: 0 <= i < |events| ==> AsCalled(events[i]);
    var states', events' := states + [m'], events + [e];
    forall i | 0 <= i < |events'|
      ensures Step(states'[i], events'[i], states'[i + 1]) && AsCalled(events'[i])
    {
      if i < |events| {
        assert Step(states[i], events[i], states[i + 1]);
      }
    }
    assert Execution(states', events');
  }

  /** Empty lists, but for buckets 0 and 5. */
  function Heads(zero: Option<nat>, five: Option<nat>): (r: Links)
    ensures |r| == PRIO_MAX
  {
    [zero, None, None, None, None, five, None, None, None, None]
  }

  /** A machine of three slots; slot 0 is the first process. */
  function Three(five: Option<nat>, next: Links, prio: seq<nat>, pid: seq<nat>, state: seq<State>, parent: Links,
                 life: seq<Life>, nextpid: nat): Machine
  {
    Machine(Heads(Some(0), five), next, prio, pid, state, parent, life, nextpid, [NoCall, NoCall, NoCall], false)
  }

  /** The first process alone, running. */
  function First(): Machine {
    Three(None, [None, None, None], [0, 0, 0], [1, 0, 0], [Running, Unused, Unused], [None, None, None],
          [Live, Free, Free], 2)
  }

  lemma Booted() returns (m: Machine)
    ensures Reachable(m) && m == First().(state := [Runnable, Unused, Unused])
  {
    hide Removes, Unlinks, Descends, Leaves, Dequeues;
    var m0 := First().(heads := Heads(None, None), pid := [0, 0, 0], state := [Unused, Unused, Unused],
                       life := [Free, Free, Free], nextpid := 1);
    assert Execution([m0], []) && [m0][|[m0]| - 1] == m0;
    assert Reachable(m0);
    hide Reachable;
    m := First().(state := [Runnable, Unused, Unused]);
    assert m0.heads[0 := Some(0)] == m.heads && m0.prio[0 := 0] == m.prio;
    ReachMore(m0, Boot(0), m);
  }

  lemma FirstReached()
    ensures Reachable(First())
  {
    hide Reachable, Step;
    var m := Booted();
    RunsFirst(m, First(), 0);
    ReachMore(m, Schedule, First());
  }

  /** A process alone in its bucket, with nothing RUNNABLE in lower ones, is scheduled and stays where it is. */
  lemma RunsFirst(m: Machine, m': Machine, c: nat)
    requires Shape(m) && c < |m.next| && m.prio[c] < PRIO_MAX && m.heads[m.prio[c]] == Some(c)
    requires m.next[c] == None && m.state[c] == Runnable && m' == m.(state := m.state[c := Running])
    requires forall a: nat :: a < m.prio[c] ==> NothingIn(m, a)
    ensures Step(m, Schedule, m')
  {
    var b, l := m.prio[c], [c];
    assert l[0 + 1..] == [] && List(m.next, m.heads[b], l) && FirstOf(m, l, 0);
    assert Without(l, 0) == [] && Rotated(l, 0) == l;
    assert m.heads[b := Some(c)] == m.heads && m.next[c := None] == m.next;
    assert DequeuesAt(m, b, c, l, 0, m'.heads, m'.next);
    assert Schedules(m, b, c, m');
  }

  lemma NothingBelow(m: Machine, b: nat)
    requires Shape(m) && |m.next| > 0 && b <= 5 && m.heads[0] == Some(0) && m.next[0] == None && m.state[0] != Runnable
    requires forall a :: 0 < a < b ==> m.heads[a] == None
    ensures forall a: nat :: a < b ==> NothingIn(m, a)
  {
    forall a: nat | a < b
      ensures NothingIn(m, a)
    {
      if a == 0 {
        assert [0][0 + 1..] == [] && List(m.next, m.heads[0], [0]);
      } else {
        assert List(m.next, m.heads[a], []);
      }
    }
  }

  /** Process 1 and its parent run; slot 2 is free, whatever it was used for. */
  function Two(used: nat, nextpid: nat): Machine {
    Three(Some(1), [None, None, None], [0, 5, 0], [1, 2, used], [Running, Running, Unused], [None, Some(0), None],
          [Live, Live, Free], nextpid)
  }

  lemma SecondBorn() returns (m: Machine)
    ensures Reachable(m)
    ensures m == First().(pid := [1, 2, 0], nextpid := 3, state := [Running, Embryo, Unused],
                          life := [Live, Born, Free], parent := [None, Some(0), None], prio := [0, 5, 0])
  {
    hide Reachable, Removes, Unlinks, Descends, Leaves, Dequeues;
    FirstReached();
    var m1 := First().(pid := [1, 2, 0], nextpid := 3, state := [Running, Embryo, Unused], life := [Live, Born, Free]);
    ReachMore(First(), Alloc(1), m1);
    m := m1.(parent := [None, Some(0), None], prio := [0, 5, 0]);
    ReachMore(m1, Adopt(1, 0), m);
  }

  lemma SecondForked() returns (m: Machine)
    ensures Reachable(m) && m == Two(0, 3).(state := [Running, Runnable, Unused])
  {
    hide Reachable, Removes, Unlinks, Descends, Leaves, Dequeues;
    var m2 := SecondBorn();
    var m3 := m2.(life := [Live, Live, Free], heads := Heads(Some(0), Some(1)));
    assert m2.heads[5 := Some(1)] == m3.heads;
    ReachMore(m2, ForkEnqueue(1), m3);
    m := m3.(state := [Running, Runnable, Unused]);
    ReachMore(m3, Ready(1), m);
  }

  lemma TwoReached()
    ensures Reachable(Two(0, 3))
  {
    hide Reachable, Step;
    var m := SecondForked();
    NothingBelow(m, 5);
    RunsFirst(m, Two(0, 3), 1);
    ReachMore(m, Schedule, Two(0, 3));
  }

  /** A fork of process 1 that fails for want of memory uses up a pid. */
  lemma PidUsed(used: nat, n: nat)
    requires Reachable(Two(used, n)) && n > 1
    ensures Reachable(Two(n, n + 1))
  {
    hide Reachable;
    var m := Two(used, n).(pid := [1, 2, n], nextpid := n + 1, state := [Running, Running, Embryo],
                          life := [Live, Live, Born]);
    ReachMore(Two(used, n), Alloc(2), m);
    ReachMore(m, AllocFails(2), Two(n, n + 1));
  }

  /** Process 2, a child of process 1, has been forked with pid n, has run and is a zombie. */
  function Orphan(n: nat): Machine {
    Three(Some(1), [None, None, None], [0, 5, 5], [1, 2, n], [Running, Running, Zombie], [None, Some(0), Some(1)],
          [Live, Live, Dead], n + 1)
  }

  /** It has been forked. */
  lemma ChildForked(used: nat, n: nat) returns (m: Machine)
    requires Reachable(Two(used, n)) && n > 2
    ensures Reachable(m)
    ensures m == Three(Some(2), [None, None, Some(1)], [0, 5, 5], [1, 2, n], [Running, Running, Runnable],
                       [None, Some(0), Some(1)], [Live, Live, Live], n + 1)
  {
    hide Reachable, Removes, Unlinks, Descends, Leaves, Dequeues;
    var m0 := Two(used, n);
    var m1 := m0.(pid := [1, 2, n], nextpid := n + 1, state := [Running, Running, Embryo], life := [Live, Live, Born]);
    ReachMore(m0, Alloc(2), m1);
    var m2 := m1.(parent := [None, Some(0), Some(1)], prio := [0, 5, 5]);
    ReachMore(m1, Adopt(2, 1), m2);
    var m3 := m2.(life := [Live, Live, Live], heads := Heads(Some(0), Some(2)), next := [None, None, Some(1)]);
    assert m2.heads[5 := Some(2)] == m3.heads;
    ReachMore(m2, ForkEnqueue(2), m3);
    m := m3.(state := [Running, Running, Runnable]);
    ReachMore(m3, Ready(2), m);
  }

  /** pq1_dequeue takes it from the head of its bucket to the tail. */
  lemma ChildScheduled(m: Machine, m': Machine)
    requires Shape(m) && |m.next| == 3 && m.next == [None, None, Some(1)] && m.heads == Heads(Some(0), Some(2))
    requires m.state == [Running, Running, Runnable] && m.prio == [0, 5, 5]
    requires m' == m.(heads := Heads(Some(0), Some(1)), next := [None, Some(2), None],
                      state := [Running, Running, Running])
    ensures Step(m, Schedule, m')
  {
    var l := [2, 1];
    assert l[0 + 1..] == [1] && l[1 + 1..] == [] && List(m.next, m.heads[5], l) && FirstOf(m, l, 0);
    assert Without(l, 0) == [1] && Rotated(l, 0) == [1, 2];
    assert m.heads[5 := Some(1)] == m'.heads && m.next[1 := Some(2)][2 := None] == m'.next;
    assert TailLink(SkipLink(m.next, l, 0), Without(l, 0), l[0]) == m'.next;
    assert DequeuesAt(m, 5, 2, l, 0, m'.heads, m'.next);
    NothingBelow(m, 5);
    assert Schedules(m, 5, 2, m');
  }

  lemma ChildExits(m: Machine, m': Machine)
    requires Shape(m) && |m.next| == 3 && m.next == [None, Some(2), None] && m.heads == Heads(Some(0), Some(1))
    requires Acts(m, 2) && m.prio == [0, 5, 5] && m.parent == [None, Some(0), Some(1)]
    requires m.pid[1] != m.pid[2]
    requires m' == m.(next := [None, None, None], life := m.life[2 := Dead])
    ensures Step(m, ExitUnlink(2, 0), m')
  {
    var l := [1, 2];
    assert l[0 + 1..] == [2] && l[1 + 1..] == [] && List(m.next, m.heads[5], l);
    assert NoPid(m, l, 1, m.pid[2]);
    assert SkipLink(m.next, l, 1)[2 := None] == m'.next;
    assert UnlinksFrom(m, 5, m.pid[2], l, m'.heads, m'.next);
    assert Orphaned(m.parent, 2, 0) == m.parent;
  }

  lemma OrphanReached(used: nat, n: nat)
    requires Reachable(Two(used, n)) && n > 2
    ensures Reachable(Orphan(n))
  {
    hide Reachable, Removes, Unlinks, Descends, Leaves, Dequeues;
    var m := ChildForked(used, n);
    var m1 := m.(heads := Heads(Some(0), Some(1)), next := [None, Some(2), None], state := [Running, Running, Running]);
    ChildScheduled(m, m1);
    ReachMore(m, Schedule, m1);
    var m2 := m1.(next := [None, None, None], life := [Live, Live, Dead]);
    ChildExits(m1, m2);
    ReachMore(m1, ExitUnlink(2, 0), m2);
    ReachMore(m2, ExitDone(2), Orphan(n));
  }

  /** Process c has called prio_set(n, n) on the zombie, and the search has found it. */
  function Sought(n: nat, c: nat): Machine
    requires c < 3
  {
    Orphan(n).(calls := [NoCall, NoCall, NoCall][c := Found(2, n)])
  }

  lemma SoughtReached(n: nat, c: nat)
    requires Reachable(Orphan(n)) && n < PRIO_MAX && ((c == 1 && n >= 5) || c == 0)
    ensures Reachable(Sought(n, c))
  {
    hide Reachable, Removes, Unlinks, Leaves, Dequeues;
    var m := Orphan(n);
    assert Descends(m, 2, c) by {
      var path := if c == 1 then [2, 1] else [2, 1, 0];
      assert forall i :: 0 <= i < |path| - 1 ==> m.parent[path[i]] == Some(path[i + 1]);
    }
    hide Descends;
    ReachMore(m, PrioFind(c, 2, n, n), Sought(n, c));
  }

  /** Its parent goes on: remove_node finds nothing. */
  lemma ZombieUnlinked() returns (m: Machine)
    ensures Reachable(m) && m == Orphan(5).(calls := [NoCall, Unlinked(2, 5), NoCall])
  {
    hide Reachable, Descends, Leaves, Dequeues;
    TwoReached();
    PidUsed(0, 3);
    PidUsed(3, 4);
    OrphanReached(4, 5);
    SoughtReached(5, 1);
    var m0 := Sought(5, 1);
    m := Orphan(5).(calls := [NoCall, Unlinked(2, 5), NoCall]);
    assert [1][0 + 1..] == [] && List(m0.next, m0.heads[5], [1]) && NoPid(m0, [1], 1, 5);
    assert UnlinksFrom(m0, 5, 5, [1], m0.heads, m0.next);
    ReachMore(m0, PrioUnlink(1), m);
  }

  /** The zombie is in a list again, in front of its parent. */
  lemma ZombieQueued() returns (m: Machine)
    ensures Reachable(m)
    ensures m == Orphan(5).(heads := Heads(Some(0), Some(2)), next := [None, None, Some(1)])
  {
    hide Reachable, Descends, Leaves, Dequeues, Removes, Unlinks;
    var m1 := ZombieUnlinked();
    var m2 := Orphan(5).(calls := [NoCall, Assigned(2, 5), NoCall]);
    ReachMore(m1, PrioAssign(1), m2);
    m := Orphan(5).(heads := Heads(Some(0), Some(2)), next := [None, None, Some(1)]);
    assert m2.heads[5 := Some(2)] == m.heads;
    ReachMore(m2, PrioEnqueue(1), m);
  }

  /**
   * A reachable state with a list that is a cycle: prio_set put a zombie back into a list, wait freed the slot
   * there, and the next fork enqueued it once more.
   */
  lemma ZombieLoop() returns (m: Machine)
    ensures Reachable(m) && Shape(m) && |m.next| == 3 && m.heads[5] == Some(2) && m.next[2] == Some(2)
    ensures m.life[2] == Live && !Good(m)
  {
    hide Reachable, Removes, Unlinks, Dequeues, Descends, Leaves;
    var m0 := ZombieQueued();
    var m1 := m0.(pid := [1, 2, 0], parent := [None, Some(0), None], state := [Running, Running, Unused],
                  prio := [0, 5, UNSET], life := [Live, Live, Free]);
    ReachMore(m0, Reap(2, 1), m1);
    var m2 := m1.(pid := [1, 2, 6], nextpid := 7, state := [Running, Running, Embryo], life := [Live, Live, Born]);
    ReachMore(m1, Alloc(2), m2);
    var m3 := m2.(parent := [None, Some(0), Some(1)], prio := [0, 5, 5]);
    ReachMore(m2, Adopt(2, 1), m3);
    m := m3.(life := [Live, Live, Live], next := [None, None, Some(2)]);
    assert m3.heads[5 := Some(2)] == m3.heads;
    ReachMore(m3, ForkEnqueue(2), m);
    if Good(m) {
      var bs :| Intact(m, bs);
      SelfLoop(m, bs);
    }
  }

  lemma SelfLoop(m: Machine, bs: seq<seq<nat>>)
    requires Shape(m) && |m.next| > 2 && m.heads[5] == Some(2) && m.next[2] == Some(2)
    ensures !WellFormed(m, bs)
  {
    if WellFormed(m, bs) {
      BucketFacts(m.heads, m.next, m.prio, bs, {}, 5);
      TailHead(bs[5], 0);
    }
  }

  /** The zombie of process 1, which an ancestor's prio_set has found, is waited for before its removal. */
  lemma FreedWhenFound() returns (m: Machine)
    ensures Reachable(m)
    ensures m == Three(Some(1), [None, None, None], [0, 5, UNSET], [1, 2, 0], [Running, Running, Unused],
                       [None, Some(0), None], [Live, Live, Free], 4).(calls := [Unlinked(2, 3), NoCall, NoCall])
  {
    hide Reachable, Descends, Leaves, Dequeues, Unlinks;
    TwoReached();
    OrphanReached(0, 3);
    SoughtReached(3, 0);
    var m0 := Sought(3, 0);
    var m1 := m0.(pid := [1, 2, 0], parent := [None, Some(0), None], state := [Running, Running, Unused],
                  prio := [0, 5, UNSET], life := [Live, Live, Free]);
    ReachMore(m0, Reap(2, 1), m1);
    m := m1.(calls := [Unlinked(2, 3), NoCall, NoCall]);
    ReachMore(m1, PrioUnlink(0), m);
  }

  /**
   * A reachable state with a free slot at the head of a list: wait freed the slot between prio_set's search and its
   * removal, which found priority -1 and removed nothing.
   */
  lemma FreeSlotQueued() returns (m: Machine)
    ensures Reachable(m) && Shape(m) && |m.next| == 3 && m.heads[3] == Some(2) && m.life[2] == Free && m.pid[2] == 0
    ensures !Good(m)
  {
    hide Reachable, Descends, Leaves, Dequeues, Unlinks, Removes;
    var m0 := FreedWhenFound();
    var m1 := m0.(calls := [Assigned(2, 3), NoCall, NoCall], prio := [0, 5, 3]);
    ReachMore(m0, PrioAssign(0), m1);
    m := m1.(calls := [NoCall, NoCall, NoCall], heads := m1.heads[3 := Some(2)]);
    ReachMore(m1, PrioEnqueue(0), m);
    if Good(m) {
      var bs :| Intact(m, bs);
      HeadIs(m, bs, 2, 3);
    }
  }

  /** A reachable state in which remove_node has taken something else for a list: the system call tests no bounds. */
  lemma AstrayReached(id: int, level: int) returns (m: Machine)
    requires !(-1 <= level < PRIO_MAX)
    ensures Step(First(), Leave(0, id, level), m) && Reachable(m) && !Good(m)
  {
    hide Reachable, Descends, Dequeues, Unlinks, Removes;
    FirstReached();
    m := First().(astray := true);
    ReachMore(First(), Leave(0, id, level), m);
  }
}
