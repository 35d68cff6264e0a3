/**
 * The scheduler's priority queue of proc.c: ten lists threaded through `proc.next`. `buckets` lists the
 * processes (indices into the process table) of each list in order; the first part says how the
 * pointers represent them, the second what dequeue picks, the third how long a process can wait.
 */
module RunQueue {
  import opened Options
  import opened LinkedLists
  import opened Sequences

  const PRIO_MAX := 10

  datatype State = Unused | Embryo | Sleeping | Runnable | Running | Zombie

  /** The members of a list have that list's priority. */
  ghost predicate OfPriority(prio: seq<nat>, b: nat, l: seq<nat>) {
    forall k :: 0 <= k < |l| ==> l[k] < |prio| && prio[l[k]] == b
  }

  ghost predicate Bucket(heads: Links, next: Links, prio: seq<nat>, b: nat, l: seq<nat>)
    requires b < |heads|
  {
    heads[b] == Head(l) && Chain(next, l) && Distinct(l) && OfPriority(prio, b, l)
  }

  /** A process that is in no list has a null `next`, except those in `loose`. */
  ghost predicate NullWhenOut(next: Links, prio: seq<nat>, buckets: seq<seq<nat>>, loose: set<nat>)
    requires |prio| == |next|
  {
    forall p: nat {:trigger next[p]} :: p < |next| && next[p] != None && p !in loose ==>
        prio[p] < |buckets| && p in buckets[prio[p]]
  }

  ghost predicate Threads(heads: Links, next: Links, prio: seq<nat>, buckets: seq<seq<nat>>, loose: set<nat>) {
    && |heads| == |buckets| == PRIO_MAX && |prio| == |next|
    && (forall b: nat {:trigger buckets[b]} :: b < PRIO_MAX ==> Bucket(heads, next, prio, b, buckets[b]))
    && NullWhenOut(next, prio, buckets, loose)
  }

  /** Replacing one list: only its head and the links of processes of its priority change. */
  lemma ReplaceBucket(heads: Links, next: Links, prio: seq<nat>, buckets: seq<seq<nat>>, loose: set<nat>,
                      heads': Links, next': Links, b: nat, l: seq<nat>, loose': set<nat>)
    requires Threads(heads, next, prio, buckets, loose) && b < PRIO_MAX && |next'| == |next|
    requires heads' == heads[b := Head(l)] && Chain(next', l) && Distinct(l) && OfPriority(prio, b, l)
    requires forall q: nat :: q < |next| && prio[q] != b ==> next'[q] == next[q] && (q in loose ==> q in loose')
    requires forall q: nat :: q < |next| && prio[q] == b && q !in loose' && q !in l ==> next'[q] == None
    ensures Threads(heads', next', prio, buckets[b := l], loose')
  {
    var buckets' := buckets[b := l];
    forall c: nat {:trigger buckets'[c]} | c < PRIO_MAX
      ensures Bucket(heads', next', prio, c, buckets'[c])
    {
      if c != b {
        assert Bucket(heads, next, prio, c, buckets[c]);
      }
    }
  }

  lemma BucketFacts(heads: Links, next: Links, prio: seq<nat>, buckets: seq<seq<nat>>, loose: set<nat>, b: nat)
    requires Threads(heads, next, prio, buckets, loose) && b < PRIO_MAX
    ensures |heads| == |buckets| == PRIO_MAX && |prio| == |next|
    ensures Bucket(heads, next, prio, b, buckets[b]) && forall i :: 0 <= i < |buckets[b]| ==> buckets[b][i] < |next|
  {
    assert Bucket(heads, next, prio, b, buckets[b]);
  }

  lemma UnlinkThreads(heads: Links, next: Links, prio: seq<nat>, buckets: seq<seq<nat>>, b: nat, k: nat)
    requires Threads(heads, next, prio, buckets, {}) && b < PRIO_MAX && k < |buckets[b]|
    ensures var l := buckets[b];
            && (forall i :: 0 <= i < |l| ==> l[i] < |next|)
            && Head(Without(l, k)) == (if k == 0 then next[l[0]] else heads[b])
            && Threads(heads[b := Head(Without(l, k))], SkipLink(next, l, k), prio, buckets[b := Without(l, k)], {l[k]})
  {
    var l := buckets[b];
    BucketFacts(heads, next, prio, buckets, {}, b);
    Unlinked(next, l, k);
    WithoutMembers(l, k);
    SkipFrame(next, l, k, prio, b);
    assert OfPriority(prio, b, Without(l, k)) by { WithoutPriority(prio, b, l, k); }
    hide Chain, SkipLink, Head, Distinct, Without, OfPriority;
    ReplaceBucket(heads, next, prio, buckets, {}, heads[b := Head(Without(l, k))], SkipLink(next, l, k), b,
      Without(l, k), {l[k]});
  }

  lemma WithoutPriority(prio: seq<nat>, b: nat, l: seq<nat>, k: nat)
    requires OfPriority(prio, b, l) && k < |l|
    ensures OfPriority(prio, b, Without(l, k))
  {
    forall i | 0 <= i < |Without(l, k)|
      ensures Without(l, k)[i] < |prio| && prio[Without(l, k)[i]] == b
    {
      WithoutAt(l, k, i);
    }
  }

  /** Unlinking touches only the list's own links. */
  lemma SkipFrame(next: Links, l: seq<nat>, k: nat, prio: seq<nat>, b: nat)
    requires k < |l| && |prio| == |next| && OfPriority(prio, b, l)
    ensures forall q: nat :: q < |next| && prio[q] != b ==> SkipLink(next, l, k)[q] == next[q]
    ensures forall q: nat :: q < |next| && q !in l ==> SkipLink(next, l, k)[q] == next[q]
  {
  }

  lemma AppendThreads(heads: Links, next: Links, prio: seq<nat>, buckets: seq<seq<nat>>, b: nat, p: nat)
    requires Threads(heads, next, prio, buckets, {p}) && b < PRIO_MAX && p < |next| && prio[p] == b && p !in buckets[b]
    ensures var l := buckets[b];
            && (forall i :: 0 <= i < |l| ==> l[i] < |next|)
            && Threads(heads[b := Head(l + [p])], TailLink(next, l, p), prio, buckets[b := l + [p]], {})
            && Head(l + [p]) == (if l == [] then Some(p) else heads[b])
  {
    var l := buckets[b];
    BucketFacts(heads, next, prio, buckets, {p}, b);
    Appended(next, l, p);
    TailFrame(next, l, p, prio, b);
    hide Chain, Head, TailLink, Distinct;
    ReplaceBucket(heads, next, prio, buckets, {p}, heads[b := Head(l + [p])], TailLink(next, l, p), b, l + [p], {});
  }

  lemma TailFrame(next: Links, l: seq<nat>, p: nat, prio: seq<nat>, b: nat)
    requires p < |next| && |prio| == |next| && OfPriority(prio, b, l) && prio[p] == b
    ensures forall q: nat :: q < |next| && prio[q] != b ==> TailLink(next, l, p)[q] == next[q]
    ensures forall q: nat :: q < |next| && q !in l && q != p ==> TailLink(next, l, p)[q] == next[q]
    ensures OfPriority(prio, b, l + [p])
  {
  }

  lemma DropThreads(heads: Links, next: Links, prio: seq<nat>, buckets: seq<seq<nat>>, b: nat, k: nat)
    requires Threads(heads, next, prio, buckets, {}) && b < PRIO_MAX && k < |buckets[b]|
    ensures var l := buckets[b];
            && (forall i :: 0 <= i < |l| ==> l[i] < |next|)
            && Head(Without(l, k)) == (if k == 0 then next[l[0]] else heads[b])
            && Threads(heads[b := Head(Without(l, k))], SkipLink(next, l, k)[l[k] := None], prio,
               buckets[b := Without(l, k)], {})
  {
    var l := buckets[b];
    BucketFacts(heads, next, prio, buckets, {}, b);
    UnlinkThreads(heads, next, prio, buckets, b, k);
    WithoutMembers(l, k);
    NullLoose(heads[b := Head(Without(l, k))], SkipLink(next, l, k), prio, buckets[b := Without(l, k)], l[k]);
  }

  /** Putting a process that is in no list in front of its bucket. */
  lemma EnqueueThreads(heads: Links, next: Links, prio: seq<nat>, buckets: seq<seq<nat>>, p: nat)
    requires Threads(heads, next, prio, buckets, {}) && p < |next| && prio[p] < PRIO_MAX && p !in buckets[prio[p]]
    ensures next[p] == None
    ensures Threads(heads[prio[p] := Some(p)], next[p := heads[prio[p]]], prio,
              buckets[prio[p] := [p] + buckets[prio[p]]], {})
  {
    var b := prio[p];
    BucketFacts(heads, next, prio, buckets, {}, b);
    Prepended(next, buckets[b], p);
    ReplaceBucket(heads, next, prio, buckets, {}, heads[b := Some(p)], next[p := heads[b]], b, [p] + buckets[b], {});
  }

  /** pq1_enqueue(p, b), whatever the lists look like. */
  function EnqueueNext(heads: Links, next: Links, p: nat, b: nat): Links
    requires b < |heads| && p < |next|
  {
    if heads[b] == None then next else next[p := heads[b]]
  }

  /** p, already in its bucket, is linked in front of it again: the list turns into a cycle. */
  lemma EnqueueTwice(heads: Links, next: Links, prio: seq<nat>, bs: seq<seq<nat>>, p: nat, bs': seq<seq<nat>>)
    requires Threads(heads, next, prio, bs, {}) && p < |prio| && prio[p] < PRIO_MAX && p in bs[prio[p]]
    ensures !Threads(heads[prio[p] := Some(p)], EnqueueNext(heads, next, p, prio[p]), prio, bs', {})
  {
    var b := prio[p];
    BucketFacts(heads, next, prio, bs, {}, b);
    var l := bs[b];
    var heads', next' := heads[b := Some(p)], EnqueueNext(heads, next, p, b);
    if Threads(heads', next', prio, bs', {}) {
      BucketFacts(heads', next', prio, bs', {}, b);
      var k: nat :| k < |l| && l[k] == p;
      FollowsOld(next, next', l, k, bs'[b], k);
    }
  }

  /** After p the new list runs through the old one and reaches p again. */
  lemma {:induction false} FollowsOld(next: Links, next': Links, l: seq<nat>, k: nat, r: seq<nat>, i: nat)
    requires Chain(next, l) && Distinct(l) && i <= k < |l| && Chain(next', r) && r != [] && r[0] == l[k]
    requires next' == next[l[k] := Head(l)]
    ensures i + 1 < |r| && r[i + 1] == l[i]
    decreases i
  {
    if i == 0 {
      TailHead(r, 0);
    } else {
      FollowsOld(next, next', l, k, r, i - 1);
      TailHead(r, i);
      TailHead(l, i - 1);
      assert l[i - 1] != l[k];
      assert next'[r[i]] == Head(r[i + 1..]);
      assert next[l[i - 1]] == Head(l[i - 1 + 1..]);
    }
  }

  /** Clearing the `next` of a process that is in no list. */
  lemma NullLoose(heads: Links, next: Links, prio: seq<nat>, buckets: seq<seq<nat>>, p: nat)
    requires Threads(heads, next, prio, buckets, {p}) && p < |next| && prio[p] < PRIO_MAX && p !in buckets[prio[p]]
    ensures Threads(heads, next[p := None], prio, buckets, {})
  {
    var b := prio[p];
    BucketFacts(heads, next, prio, buckets, {p}, b);
    ReplaceBucket(heads, next, prio, buckets, {p}, heads, next[p := None], b, buckets[b], {});
    assert buckets[b := buckets[b]] == buckets;
  }

  // ---- What dequeue picks ----

  /** The position of the first RUNNABLE process, or the length of the list. */
  function FirstRunnable(l: seq<nat>, state: seq<State>): (k: nat)
    requires forall i :: 0 <= i < |l| ==> l[i] < |state|
    ensures k <= |l| && (k < |l| ==> state[l[k]] == Runnable)
    ensures forall i :: 0 <= i < k ==> state[l[i]] != Runnable
  {
    if l == [] || state[l[0]] == Runnable then 0 else 1 + FirstRunnable(l[1..], state)
  }

  ghost predicate InTable(buckets: seq<seq<nat>>, n: nat) {
    forall b: nat {:trigger buckets[b]} :: b < |buckets| ==> forall i :: 0 <= i < |buckets[b]| ==> buckets[b][i] < n
  }

  ghost predicate HasRunnable(buckets: seq<seq<nat>>, state: seq<State>, b: nat)
    requires InTable(buckets, |state|) && b < |buckets|
  {
    FirstRunnable(buckets[b], state) < |buckets[b]|
  }

  /** The lowest-numbered bucket with a RUNNABLE process. */
  ghost predicate PicksFrom(buckets: seq<seq<nat>>, state: seq<State>, b: nat)
    requires InTable(buckets, |state|)
  {
    b < |buckets| && HasRunnable(buckets, state, b) && forall c: nat :: c < b ==> !HasRunnable(buckets, state, c)
  }

  ghost predicate NothingRunnable(buckets: seq<seq<nat>>, state: seq<State>)
    requires InTable(buckets, |state|)
  {
    forall c: nat :: c < |buckets| ==> !HasRunnable(buckets, state, c)
  }

  /** Position k moved to the tail. */
  function Rotated(l: seq<nat>, k: nat): seq<nat>
    requires k < |l|
  {
    Without(l, k) + [l[k]]
  }

  /** The buckets after process p has left bucket b. */
  ghost function Removed(buckets: seq<seq<nat>>, b: nat, p: nat): seq<seq<nat>>
    requires b < |buckets|
  {
    if p in buckets[b] then
      var k: nat :| k < |buckets[b]| && buckets[b][k] == p;
      buckets[b := Without(buckets[b], k)]
    else
      buckets
  }

  lemma RotatedMembers(l: seq<nat>, k: nat)
    requires Distinct(l) && k < |l|
    ensures l[k] !in Without(l, k) && Distinct(Rotated(l, k)) && forall q :: q in Rotated(l, k) <==> q in l
  {
    WithoutMembers(l, k);
  }

  // ---- Process ids ----

  ghost predicate UniquePids(pid: seq<nat>) {
    forall p, q :: 0 <= p < |pid| && 0 <= q < |pid| && pid[p] == pid[q] && pid[p] != 0 ==> p == q
  }

  ghost predicate QueuedPids(pid: seq<nat>, prio: seq<nat>, buckets: seq<seq<nat>>)
    requires |prio| == |pid|
  {
    forall p: nat {:trigger pid[p]} :: p < |pid| && prio[p] < |buckets| && p in buckets[prio[p]] ==> pid[p] != 0
  }

  lemma SamePids(pid: seq<nat>, prio: seq<nat>, buckets: seq<seq<nat>>, b: nat, l: seq<nat>)
    requires |prio| == |pid| && QueuedPids(pid, prio, buckets) && b < |buckets|
    requires forall q :: q in l ==> q in buckets[b] || (q < |pid| && pid[q] != 0)
    ensures QueuedPids(pid, prio, buckets[b := l])
  {
  }

  lemma RemovedNone(buckets: seq<seq<nat>>, b: nat, p: nat)
    requires b < |buckets| && p !in buckets[b]
    ensures Removed(buckets, b, p) == buckets
  {
  }

  lemma RemovedIs(heads: Links, next: Links, prio: seq<nat>, buckets: seq<seq<nat>>, pid: seq<nat>, p: nat, k: nat)
    requires Threads(heads, next, prio, buckets, {}) && p < |prio| && prio[p] < PRIO_MAX && k < |buckets[prio[p]]|
    requires buckets[prio[p]][k] == p && |pid| == |prio| && QueuedPids(pid, prio, buckets)
    ensures Removed(buckets, prio[p], p) == buckets[prio[p] := Without(buckets[prio[p]], k)]
    ensures p !in Without(buckets[prio[p]], k) &&
            QueuedPids(pid, prio, buckets[prio[p] := Without(buckets[prio[p]], k)])
  {
    BucketFacts(heads, next, prio, buckets, {}, prio[p]);
    WithoutMembers(buckets[prio[p]], k);
    SamePids(pid, prio, buckets, prio[p], Without(buckets[prio[p]], k));
  }

  lemma EnqueueOutcome(heads: Links, next: Links, prio: seq<nat>, pid: seq<nat>, bs: seq<seq<nat>>, p: nat)
    requires Threads(heads, next, prio, bs, {}) && |pid| == |prio| && p < |prio| && prio[p] < PRIO_MAX && pid[p] != 0
    requires QueuedPids(pid, prio, bs)
    ensures var b := prio[p]; var heads', next' := heads[b := Some(p)], EnqueueNext(heads, next, p, b);
            && (p !in bs[b] ==>
                  && Threads(heads', next', prio, bs[b := [p] + bs[b]], {})
                  && QueuedPids(pid, prio, bs[b := [p] + bs[b]]))
            && (p in bs[b] ==> forall bs' :: !Threads(heads', next', prio, bs', {}))
  {
    var b := prio[p];
    var heads', next' := heads[b := Some(p)], EnqueueNext(heads, next, p, b);
    if p in bs[b] {
      forall bs'
        ensures !Threads(heads', next', prio, bs', {})
      {
        EnqueueTwice(heads, next, prio, bs, p, bs');
      }
    } else {
      EnqueueThreads(heads, next, prio, bs, p);
      if heads[b] == None {
        assert next[p := None] == next;
      }
      SamePids(pid, prio, bs, b, [p] + bs[b]);
    }
  }

  // ---- Families ----

  /** Parents form a forest (`rank` decreases towards the root), and a free slot has none. */
  ghost predicate Family(parent: Links, pid: seq<nat>, rank: seq<nat>) {
    && |parent| == |pid| == |rank|
    && (forall p: nat {:trigger parent[p]} :: p < |pid| && parent[p] != None ==>
          pid[p] != 0 && parent[p].value < |pid| && rank[parent[p].value] < rank[p])
  }

  /** `a` is `p` or one of its ancestors. */
  ghost predicate Ancestor(parent: Links, pid: seq<nat>, rank: seq<nat>, a: nat, p: nat)
    requires Family(parent, pid, rank) && p < |pid|
    decreases rank[p]
  {
    p == a || (parent[p] != None && Ancestor(parent, pid, rank, a, parent[p].value))
  }

  /** Some process with pid `target` is `a` or a descendant of `a`. */
  ghost predicate Related(parent: Links, pid: seq<nat>, rank: seq<nat>, a: nat, target: nat)
    requires Family(parent, pid, rank)
  {
    exists p: nat {:trigger pid[p]} :: p < |pid| && pid[p] == target && Ancestor(parent, pid, rank, a, p)
  }

  lemma NoFreeRelative(parent: Links, pid: seq<nat>, rank: seq<nat>, a: nat)
    requires Family(parent, pid, rank) && a < |pid| && pid[a] != 0
    ensures !Related(parent, pid, rank, a, 0)
  {
  }

  // ---- Runs of the scheduler ----

  /** The queue as the other modules see it. */
  datatype Sched = Sched(buckets: seq<seq<nat>>, prio: seq<nat>, state: seq<State>)

  datatype Event =
    | Enqueue(p: nat)                 // fork, userinit, prio_set
    | Dequeue                         // scheduler
    | Remove(p: nat)                  // exit, prio_set
    | SetPrio(p: nat, pr: nat)        // fork, prio_set between the two
    | SetState(p: nat, st: State)     // sleep, wakeup, yield, exit, scheduler

  ghost predicate Sound(s: Sched) {
    && |s.buckets| == PRIO_MAX && |s.state| == |s.prio|
    && (forall b: nat {:trigger s.buckets[b]} :: b < PRIO_MAX ==>
          Distinct(s.buckets[b]) && OfPriority(s.prio, b, s.buckets[b]))
    && InTable(s.buckets, |s.state|)
  }

  ghost predicate IsQueued(s: Sched, p: nat) {
    p < |s.prio| && s.prio[p] < |s.buckets| && p in s.buckets[s.prio[p]]
  }

  ghost predicate Step(s: Sched, e: Event, s': Sched)
    requires Sound(s)
  {
    match e
    case Enqueue(p) =>
      && p < |s.prio| && s.prio[p] < PRIO_MAX && !IsQueued(s, p)
      && s' == s.(buckets := s.buckets[s.prio[p] := [p] + s.buckets[s.prio[p]]])
    case Dequeue =>
      || (NothingRunnable(s.buckets, s.state) && s' == s)
      || exists b: nat :: PicksFrom(s.buckets, s.state, b) && s' == Rotation(s, b)
    case Remove(p) =>
      && p < |s.prio| && s.prio[p] < PRIO_MAX
      && s' == s.(buckets := Removed(s.buckets, s.prio[p], p))
    case SetPrio(p, pr) =>
      p < |s.prio| && !IsQueued(s, p) && s' == s.(prio := s.prio[p := pr])
    case SetState(p, st) =>
      p < |s.state| && s' == s.(state := s.state[p := st])
  }

  ghost function Rotation(s: Sched, b: nat): Sched
    requires Sound(s) && b < PRIO_MAX && HasRunnable(s.buckets, s.state, b)
  {
    s.(buckets := s.buckets[b := Rotated(s.buckets[b], FirstRunnable(s.buckets[b], s.state))])
  }

  /** Every step keeps each process in at most one bucket, that of its priority, exactly once. */
  lemma StepKeepsSound(s: Sched, e: Event, s': Sched)
    requires Sound(s) && Step(s, e, s')
    ensures Sound(s')
  {
    match e
    case Enqueue(p) => NewBucket(s, s', s.prio[p], [p] + s.buckets[s.prio[p]]);
    case Dequeue =>
      if s' != s {
        var b: nat :| PicksFrom(s.buckets, s.state, b) && s' == Rotation(s, b);
        RotatedMembers(s.buckets[b], FirstRunnable(s.buckets[b], s.state));
        NewBucket(s, s', b, s'.buckets[b]);
      }
    case Remove(p) =>
      var b := s.prio[p];
      if p in s.buckets[b] {
        var k: nat :| k < |s.buckets[b]| && s.buckets[b][k] == p &&
            s' == s.(buckets := s.buckets[b := Without(s.buckets[b], k)]);
        WithoutMembers(s.buckets[b], k);
        NewBucket(s, s', b, Without(s.buckets[b], k));
      }
    case SetPrio(p, pr) =>
      forall b: nat {:trigger s'.buckets[b]} | b < PRIO_MAX
        ensures Distinct(s'.buckets[b]) && OfPriority(s'.prio, b, s'.buckets[b])
      {
        assert OfPriority(s.prio, b, s.buckets[b]);
      }
    case SetState(p, st) =>
  }

  lemma RemoveStep(s: Sched, s': Sched, p: nat)
    requires Sound(s) && p < |s.prio| && s.prio[p] < PRIO_MAX && s' == s.(buckets := Removed(s.buckets, s.prio[p], p))
    ensures Step(s, Remove(p), s')
  {
  }

  lemma NewBucket(s: Sched, s': Sched, b: nat, l: seq<nat>)
    requires Sound(s) && b < PRIO_MAX && s' == s.(buckets := s.buckets[b := l]) && Distinct(l)
    requires forall q :: q in l ==> q < |s.prio| && s.prio[q] == b
    ensures Sound(s')
  {
    assert OfPriority(s.prio, b, l) by {
      forall k | 0 <= k < |l| ensures l[k] < |s.prio| && s.prio[l[k]] == b { assert l[k] in l; }
    }
    forall c: nat {:trigger s'.buckets[c]} | c < PRIO_MAX
      ensures Distinct(s'.buckets[c]) && OfPriority(s'.prio, c, s'.buckets[c])
    {
      assert Distinct(s.buckets[c]) && OfPriority(s.prio, c, s.buckets[c]);
      assert s'.buckets[c] == if c == b then l else s.buckets[c];
    }
  }

  // ---- The code ----

  class PrioQueue {
    var queue: Links             // prioqueue.queue
    var next: Links              // proc.next, by process
    var priority: seq<nat>
    var state: seq<State>
    var pid: seq<nat>
    var parent: Links
    ghost var buckets: seq<seq<nat>>

    ghost predicate Queued(p: nat)
      reads this
    {
      p < |priority| && priority[p] < |buckets| && p in buckets[priority[p]]
    }

    ghost predicate Valid()
      reads this
    {
      && |queue| == |buckets| == PRIO_MAX && |priority| == |state| == |pid| == |next|
      && Threads(queue, next, priority, buckets, {})
      && (forall p :: 0 <= p < |priority| && pid[p] != 0 ==> priority[p] < PRIO_MAX)
      && UniquePids(pid) && QueuedPids(pid, priority, buckets)
    }

    /** The queue as a state of the scheduler's runs. */
    ghost function View(): Sched
      reads this
    {
      Sched(buckets, priority, state)
    }

    lemma ValidIsSound()
      requires Valid()
      ensures Sound(View())
    {
      ValidInTable();
      forall b: nat {:trigger buckets[b]} | b < PRIO_MAX
        ensures Distinct(buckets[b]) && OfPriority(priority, b, buckets[b])
      {
        BucketFacts(queue, next, priority, buckets, {}, b);
      }
    }

    lemma ValidInTable()
      requires Threads(queue, next, priority, buckets, {})
      ensures InTable(buckets, |next|)
    {
      forall b: nat | b < |buckets|
        ensures forall i :: 0 <= i < |buckets[b]| ==> buckets[b][i] < |next|
      {
        assert Bucket(queue, next, priority, b, buckets[b]);
      }
    }

    /**
     * pq1_enqueue: the process becomes the head of its bucket if it was in none. If it was in one, the links
     * it leaves are not lists at all.
     */
    method Enqueue(p: nat)
      requires Valid() && p < |next| && pid[p] != 0
      modifies `queue, `next, `buckets
      ensures queue == old(queue)[priority[p] := Some(p)] && next == EnqueueNext(old(queue), old(next), p, priority[p])
      ensures !old(Queued(p)) ==> Valid() && buckets == old(buckets)[priority[p] := [p] + old(buckets)[priority[p]]]
      ensures !old(Queued(p)) ==> Sound(old(View())) && Step(old(View()), Event.Enqueue(p), View())
      ensures old(Queued(p)) ==> forall bs :: !Threads(queue, next, priority, bs, {})
    {
      ValidIsSound();
      EnqueueOutcome(queue, next, priority, pid, buckets, p);
      hide Sound, Threads, QueuedPids, UniquePids;
      var b := priority[p];
      if queue[b] == None {
        queue := queue[b := Some(p)];
      } else {
        var cur := queue[b];
        queue := queue[b := Some(p)];
        next := next[p := cur];
      }
      if p !in buckets[b] {
        buckets := buckets[b := [p] + buckets[b]];
      }
    }

    /** The inner loop of pq1_dequeue. */
    method FindRunnable(b: nat) returns (cur: Option<nat>, ghost k: nat)
      requires Threads(queue, next, priority, buckets, {}) && |state| == |next| && b < PRIO_MAX &&
               InTable(buckets, |state|)
      ensures k == FirstRunnable(buckets[b], state) && (cur == if k < |buckets[b]| then Some(buckets[b][k]) else None)
    {
      ghost var l := buckets[b];
      assert Bucket(queue, next, priority, b, l);
      cur, k := queue[b], 0;
      while cur != None && state[cur.value] != Runnable
        invariant k <= |l| && cur == Head(l[k..])
        invariant FirstRunnable(l, state) == k + FirstRunnable(l[k..], state)
        decreases |l| - k
      {
        assert l[k..][1..] == l[k + 1..];
        cur := next[cur.value];
        k := k + 1;
      }
    }

    /** Unlink position `k` of bucket `b`, the node `cur`, by walking to its predecessor. */
    method Unlink(b: nat, cur: nat, ghost k: nat)
      requires Threads(queue, next, priority, buckets, {}) && b < PRIO_MAX && k < |buckets[b]| && buckets[b][k] == cur
      modifies `queue, `next, `buckets
      ensures Threads(queue, next, priority, buckets, {cur})
      ensures buckets == old(buckets)[b := Without(old(buckets)[b], k)]
    {
      ghost var l := buckets[b];
      UnlinkThreads(queue, next, priority, buckets, b, k);
      AtHead(b, k);
      hide Threads;
      if queue[b] == Some(cur) {
        queue := queue[b := next[cur]];
      } else {
        var prev := WalkTo(b, cur, k);
        assert queue[b := queue[b]] == queue;
        next := next[prev := next[cur]];
      }
      buckets := buckets[b := Without(l, k)];
    }

    lemma AtHead(b: nat, k: nat)
      requires Threads(queue, next, priority, buckets, {}) && b < PRIO_MAX && k < |buckets[b]|
      ensures queue[b] == Some(buckets[b][k]) <==> k == 0
    {
      BucketFacts(queue, next, priority, buckets, {}, b);
    }

    /** The walk to the node whose `next` is `cur`. */
    method WalkTo(b: nat, cur: nat, ghost k: nat) returns (prev: nat)
      requires Threads(queue, next, priority, buckets, {}) && b < PRIO_MAX && 0 < k < |buckets[b]| &&
               buckets[b][k] == cur
      ensures prev == buckets[b][k - 1]
    {
      ghost var l := buckets[b];
      assert Bucket(queue, next, priority, b, l);
      prev := queue[b].value;
      ghost var i := 0;
      TailHead(l, 0);
      while next[prev] != Some(cur)
        invariant i < k && prev == l[i] && next[prev] == Some(l[i + 1])
        decreases k - i
      {
        prev := next[prev].value;
        i := i + 1;
        TailHead(l, i);
      }
    }

    /** Append `cur`, just unlinked, to bucket `b`. */
    method Append(b: nat, cur: nat)
      requires Threads(queue, next, priority, buckets, {cur}) && b < PRIO_MAX && cur < |next|
      requires priority[cur] == b && cur !in buckets[b]
      modifies `queue, `next, `buckets
      ensures Threads(queue, next, priority, buckets, {}) && buckets == old(buckets)[b := old(buckets)[b] + [cur]]
    {
      ghost var l := buckets[b];
      BucketFacts(queue, next, priority, buckets, {cur}, b);
      AppendThreads(queue, next, priority, buckets, b, cur);
      assert queue[b] == None <==> l == [];
      hide Threads, Bucket;
      if queue[b] == None {
        queue := queue[b := Some(cur)];
      } else {
        var last := WalkToLast(b);
        assert queue[b := queue[b]] == queue;
        next := next[last := Some(cur)];
      }
      next := next[cur := None];
      buckets := buckets[b := l + [cur]];
    }

    method WalkToLast(b: nat) returns (last: nat)
      requires b < |queue| && b < |buckets| && Bucket(queue, next, priority, b, buckets[b]) && buckets[b] != []
      ensures last == buckets[b][|buckets[b]| - 1]
    {
      ghost var l := buckets[b];
      last := queue[b].value;
      ghost var i := 0;
      TailHead(l, 0);
      while next[last] != None
        invariant i < |l| && last == l[i] && next[last] == Head(l[i + 1..])
        decreases |l| - i
      {
        last := next[last].value;
        i := i + 1;
      }
    }

    /** The search of pq1_dequeue over the buckets. */
    method FindFirst() returns (cur: Option<nat>, ghost b: nat, ghost k: nat)
      requires |buckets| == PRIO_MAX && Threads(queue, next, priority, buckets, {}) && |state| == |next| &&
               InTable(buckets, |state|)
      ensures cur == None <==> NothingRunnable(buckets, state)
      ensures cur != None ==>
                PicksFrom(buckets, state, b) && k == FirstRunnable(buckets[b], state) && cur.value == buckets[b][k]
    {
      hide FirstRunnable, Threads, InTable;
      var i := 0;
      cur, b, k := None, 0, 0;
      while i < PRIO_MAX
        invariant i <= PRIO_MAX
        invariant forall c: nat :: c < i ==> !HasRunnable(buckets, state, c)
      {
        cur, k := FindRunnable(i);
        b := i;
        if cur != None {
          assert HasRunnable(buckets, state, b);
          return;
        }
        i := i + 1;
      }
      cur := None;
    }

    /** pq1_dequeue: the first RUNNABLE process of the lowest bucket that has one moves to its tail. */
    method Dequeue() returns (r: Option<nat>, ghost b: nat)
      requires Valid()
      modifies `queue, `next, `buckets
      ensures Valid() && InTable(old(buckets), |state|)
      ensures r == None <==> NothingRunnable(old(buckets), state)
      ensures r == None ==> buckets == old(buckets) && next == old(next) && queue == old(queue)
      ensures r != None ==> PicksFrom(old(buckets), state, b) &&
                            var l := old(buckets)[b];
                            var k := FirstRunnable(l, state);
                            r == Some(l[k]) && buckets == old(buckets)[b := Rotated(l, k)]
      ensures Sound(old(View())) && Step(old(View()), Event.Dequeue, View())
    {
      ValidIsSound();
      ValidInTable();
      ghost var k;
      r, b, k := FindFirst();
      if r != None {
        BucketFacts(queue, next, priority, buckets, {}, b);
        RotatedMembers(buckets[b], k);
        SamePids(pid, priority, buckets, b, Rotated(buckets[b], k));
        Rotate(priority[r.value], r.value, k);
      }
    }

    /** Removal and re-insertion at the tail. */
    method Rotate(b: nat, cur: nat, ghost k: nat)
      requires Threads(queue, next, priority, buckets, {}) && b < PRIO_MAX && k < |buckets[b]| && buckets[b][k] == cur
      modifies `queue, `next, `buckets
      ensures Threads(queue, next, priority, buckets, {}) && buckets == old(buckets)[b := Rotated(old(buckets)[b], k)]
    {
      ghost var was := buckets;
      BucketFacts(queue, next, priority, buckets, {}, b);
      RotatedMembers(was[b], k);
      hide Threads, Distinct, Chain, OfPriority;
      Unlink(b, cur, k);
      Append(b, cur);
      assert buckets == was[b := Rotated(was[b], k)];
    }

    /** The search of remove_node. */
    method FindNode(p: nat) returns (prev: Option<nat>, cur: Option<nat>, ghost k: nat)
      requires Valid() && p < |next| && priority[p] < PRIO_MAX
      ensures cur == None <==> !Queued(p)
      ensures cur != None ==> k < |buckets[priority[p]]| && buckets[priority[p]][k] == p
      ensures cur != None ==> prev == if k == 0 then None else Some(buckets[priority[p]][k - 1])
    {
      ghost var l := buckets[priority[p]];
      BucketFacts(queue, next, priority, buckets, {}, priority[p]);
      prev, cur, k := None, queue[priority[p]], 0;
      while cur != None && pid[cur.value] != pid[p]
        invariant k <= |l| && cur == Head(l[k..]) && (prev == if k == 0 then None else Some(l[k - 1]))
        invariant forall j :: 0 <= j < k ==> pid[l[j]] != pid[p]
        decreases |l| - k
      {
        prev, cur := cur, next[cur.value];
        k := k + 1;
      }
      if cur != None {
        assert Queued(l[k]);
      }
    }

    /** remove_node: the process leaves its bucket, if it was in one, and its `next` is null. */
    method RemoveNode(p: nat)
      requires Valid() && p < |next| && priority[p] < PRIO_MAX
      modifies `queue, `next, `buckets
      ensures Valid() && !Queued(p)
      ensures buckets == Removed(old(buckets), priority[p], p)
      ensures !old(Queued(p)) ==> next == old(next) && queue == old(queue)
      ensures Sound(old(View())) && Step(old(View()), Event.Remove(p), View())
    {
      hide Sound, Step, Threads, QueuedPids, UniquePids, Removed;
      ValidIsSound();
      ghost var was := View();
      var prev, cur;
      ghost var k;
      prev, cur, k := FindNode(p);
      if cur != None {
        RemovedIs(queue, next, priority, buckets, pid, p, k);
        Drop(p, prev, k);
      } else {
        RemovedNone(buckets, priority[p], p);
      }
      RemoveStep(was, View(), p);
    }

    /** The assignments of remove_node. */
    method Drop(p: nat, prev: Option<nat>, ghost k: nat)
      requires Threads(queue, next, priority, buckets, {}) && p < |priority| && priority[p] < PRIO_MAX
      requires k < |buckets[priority[p]]| && buckets[priority[p]][k] == p
      requires prev == if k == 0 then None else Some(buckets[priority[p]][k - 1])
      modifies `queue, `next, `buckets
      ensures Threads(queue, next, priority, buckets, {}) &&
              buckets == old(buckets)[priority[p] := Without(old(buckets)[priority[p]], k)]
      ensures |queue| == old(|queue|) && |next| == old(|next|)
    {
      var b := priority[p];
      ghost var l := buckets[b];
      BucketFacts(queue, next, priority, buckets, {}, b);
      DropThreads(queue, next, priority, buckets, b, k);
      hide Threads, Distinct, Chain, OfPriority;
      if prev != None {
        assert queue[b := queue[b]] == queue;
        next := next[prev.value := next[p]];
      } else {
        queue := queue[b := next[p]];
      }
      next := next[p := None];
      buckets := buckets[b := Without(l, k)];
    }

    // ---- prio_set ----

    method FindPid(target: nat) returns (r: Option<nat>)
      ensures r == None ==> forall p :: 0 <= p < |pid| ==> pid[p] != target
      ensures r != None ==> r.value < |pid| && pid[r.value] == target
    {
      r := None;
      for i := 0 to |pid|
        invariant r == None ==> forall p :: 0 <= p < i ==> pid[p] != target
        invariant r != None ==> r.value < |pid| && pid[r.value] == target
      {
        if pid[i] == target {
          r := Some(i);
        }
      }
    }

    method InAncestry(me: nat, p: Option<nat>, ghost rank: seq<nat>) returns (found: bool)
      requires Family(parent, pid, rank) && UniquePids(pid) && me < |pid| && pid[me] != 0 &&
               (p != None ==> p.value < |pid|)
      ensures found <==> p != None && Ancestor(parent, pid, rank, me, p.value)
      ensures found ==> pid[p.value] != 0
    {
      var a := p;
      while a != None
        invariant a != None ==> a.value < |pid|
        invariant p != None && Ancestor(parent, pid, rank, me, p.value) <==>
                  a != None && Ancestor(parent, pid, rank, me, a.value)
        invariant a != None && a != p ==> p != None && pid[p.value] != 0
        decreases if a == None then 0 else 1 + rank[a.value]
      {
        if pid[a.value] == pid[me] {
          return true;
        }
        a := parent[a.value];
      }
      return false;
    }

    /** The search of prio_set: the process with that pid, if it is `me` or a descendant of `me`. */
    method FindTarget(me: nat, target: nat, ghost rank: seq<nat>) returns (r: Option<nat>)
      requires Family(parent, pid, rank) && UniquePids(pid) && me < |pid| && pid[me] != 0
      ensures r != None <==> Related(parent, pid, rank, me, target)
      ensures r != None ==> r.value < |pid| && pid[r.value] == target && target != 0
    {
      r := FindPid(target);
      var found := InAncestry(me, r, rank);
      if target == 0 {
        NoFreeRelative(parent, pid, rank, me);
      }
      if !found {
        r := None;
      }
    }

    /**
     * prio_set under its first hold of the queue's lock, run by `me`: the process to move, unless the priority is
     * out of range or above `me`'s own, or the target is neither `me` nor a descendant.
     */
    method PrioCheck(me: nat, target: int, pr: int, ghost rank: seq<nat>) returns (r: Option<nat>)
      requires Valid() && Family(parent, pid, rank) && me < |pid| && pid[me] != 0
      ensures r.Some? <==> target >= 0 && priority[me] <= pr < PRIO_MAX && Related(parent, pid, rank, me, target)
      ensures r.Some? ==> r.value < |pid| && pid[r.value] == target
    {
      hide Threads, QueuedPids, UniquePids, Family, Related;
      if pr < 0 || pr >= PRIO_MAX || pr < priority[me] || target < 0 {
        return None;
      }
      r := FindTarget(me, target, rank);
    }

    /**
     * sys_prio_set, up to there: both arguments are fetched from the place of the first, so that a process can only
     * be given its own pid as its priority, whatever was asked for.
     */
    method SysPrioSet(me: nat, args: seq<int>, ghost rank: seq<nat>) returns (r: Option<nat>, pr: int)
      requires Valid() && Family(parent, pid, rank) && me < |pid| && pid[me] != 0 && |args| > 0
      ensures r.Some? <==>
                args[0] >= 0 && priority[me] <= args[0] < PRIO_MAX && Related(parent, pid, rank, me, args[0])
      ensures r.Some? ==> r.value < |pid| && pid[r.value] == pr
    {
      var target := args[0];
      pr := args[0];
      r := PrioCheck(me, target, pr, rank);
    }
  }

  // ---- How long a RUNNABLE process can be passed over ----

  /** `p` stands at position k of bucket b, RUNNABLE, and no lower-numbered bucket has a RUNNABLE process. */
  ghost predicate Waiting(s: Sched, p: nat, b: nat, k: nat) {
    && Sound(s) && b < PRIO_MAX && k < |s.buckets[b]| && s.buckets[b][k] == p
    && s.state[p] == Runnable && NoneBelow(s, b)
  }

  ghost predicate NoneBelow(s: Sched, b: nat)
    requires Sound(s) && b < PRIO_MAX
  {
    forall c: nat :: c < b ==> !HasRunnable(s.buckets, s.state, c)
  }

  /** The step is a dequeue that returns p. */
  ghost predicate Selects(s: Sched, e: Event, p: nat)
    requires Sound(s)
  {
    e.Dequeue? &&
      exists b: nat :: PicksFrom(s.buckets, s.state, b) && s.buckets[b][FirstRunnable(s.buckets[b], s.state)] == p
  }

  /** One step moves a waiting process: a dequeue that passes it over brings it forward, an enqueue sets it back. */
  lemma WaitingStep(s: Sched, e: Event, s': Sched, p: nat, b: nat, k: nat) returns (k': nat)
    requires Waiting(s, p, b, k) && Step(s, e, s') && e != Remove(p) && !Selects(s, e, p)
    ensures b < |s'.buckets| && k' < |s'.buckets[b]| && s'.buckets[b][k'] == p
    ensures e.Dequeue? ==> k' < k
    ensures !e.Dequeue? ==> k' <= k + if e.Enqueue? && s.prio[e.p] == b then 1 else 0
  {
    match e
    case Enqueue(q) => k' := if s.prio[q] == b then k + 1 else k;
    case Dequeue => k' := k - 1; PassedByDequeue(s, s', p, b, k);
    case Remove(q) => k' := WaitingRemove(s, q, s', p, b, k);
    case SetPrio(q, pr) => k' := k;
    case SetState(q, st) => k' := k;
  }

  lemma PassedByDequeue(s: Sched, s': Sched, p: nat, b: nat, k: nat)
    requires Waiting(s, p, b, k) && Step(s, Dequeue, s') && !Selects(s, Dequeue, p)
    ensures 0 < k <= |s'.buckets[b]| && s'.buckets[b][k - 1] == p
  {
    assert PicksFrom(s.buckets, s.state, b);
    OnePick(s, b);
    var l := s.buckets[b];
    var f := FirstRunnable(l, s.state);
    hide FirstRunnable, HasRunnable, Sound;
    assert s'.buckets[b] == Rotated(l, f);
    assert f < k;
    WithoutAt(l, f, k - 1);
  }

  lemma WaitingRemove(s: Sched, q: nat, s': Sched, p: nat, b: nat, k: nat) returns (k': nat)
    requires Waiting(s, p, b, k) && Step(s, Remove(q), s') && q != p
    ensures b < |s'.buckets| && k' < |s'.buckets[b]| && s'.buckets[b][k'] == p && k' <= k
  {
    var c := s.prio[q];
    assert s'.buckets == Removed(s.buckets, c, q) && |s.buckets| == PRIO_MAX;
    k' := ShiftedBy(s.buckets, c, q, b, k);
  }

  /** Where position k of bucket b is after q has left bucket c. */
  lemma ShiftedBy(buckets: seq<seq<nat>>, c: nat, q: nat, b: nat, k: nat) returns (k': nat)
    requires c < |buckets| && b < |buckets| && k < |buckets[b]| && buckets[b][k] != q
    ensures k' <= k < |buckets[b]| && |Removed(buckets, c, q)| == |buckets|
    ensures k' < |Removed(buckets, c, q)[b]| && Removed(buckets, c, q)[b][k'] == buckets[b][k]
  {
    k' := k;
    if q in buckets[c] && c == b {
      var i: nat :| i < |buckets[c]| && buckets[c][i] == q &&
          Removed(buckets, c, q) == buckets[c := Without(buckets[c], i)];
      k' := if i < k then k - 1 else k;
      WithoutAt(buckets[b], i, k');
    }
  }

  lemma OnePick(s: Sched, b: nat)
    requires Sound(s) && PicksFrom(s.buckets, s.state, b)
    ensures forall c: nat :: PicksFrom(s.buckets, s.state, c) ==> c == b
  {
  }

  /** A run: states[i] steps to states[i + 1] by events[i]. */
  ghost predicate Run(states: seq<Sched>, events: seq<Event>) {
    && |states| == |events| + 1 && Sound(states[0])
    && forall i :: 0 <= i < |events| ==> Sound(states[i]) && Step(states[i], events[i], states[i + 1])
  }

  /** Throughout the run p stays RUNNABLE and queued in bucket b, with no RUNNABLE process below b. */
  ghost predicate Stays(states: seq<Sched>, events: seq<Event>, p: nat, b: nat)
    requires Run(states, events) && b < PRIO_MAX
  {
    forall i :: 0 <= i < |events| ==>
      events[i] != Remove(p) && p < |states[i].state| && states[i].state[p] == Runnable && NoneBelow(states[i], b)
  }

  ghost function Dequeues(events: seq<Event>): nat {
    if events == [] then 0 else (if events[0].Dequeue? then 1 else 0) + Dequeues(events[1..])
  }

  /** How many processes join bucket b during the run. */
  ghost function Joins(states: seq<Sched>, events: seq<Event>, b: nat): nat
    requires Run(states, events)
  {
    if events == [] then 0
    else
      assert Step(states[0], events[0], states[1]);
      (if events[0].Enqueue? &&
        states[0].prio[events[0].p] == b then 1 else 0) + Joins(states[1..], RunTail(states, events), b)
  }

  ghost function RunTail(states: seq<Sched>, events: seq<Event>): (r: seq<Event>)
    requires Run(states, events) && events != []
    ensures Run(states[1..], r) && r == events[1..]
  {
    assert Step(states[0], events[0], states[1]);
    StepKeepsSound(states[0], events[0], states[1]);
    assert forall i :: 0 <= i < |events[1..]| ==> Step(states[1..][i], events[1..][i], states[1..][i + 1]) by {
      forall i | 0 <= i < |events[1..]| ensures Sound(states[1..][i]) &&
          Step(states[1..][i], events[1..][i], states[1..][i + 1]) {
        assert Step(states[i + 1], events[i + 1], states[i + 2]);
      }
    }
    events[1..]
  }

  /** If no dequeue of the run selects p, the run has at most k + j dequeues, j being the joins of its bucket. */
  lemma {:induction false} PassedOver(states: seq<Sched>, events: seq<Event>, p: nat, b: nat, k: nat)
    requires Run(states, events) && b < PRIO_MAX && k < |states[0].buckets[b]| && states[0].buckets[b][k] == p
    requires Stays(states, events, p, b) && forall i :: 0 <= i < |events| ==> !Selects(states[i], events[i], p)
    ensures Dequeues(events) <= k + Joins(states, events, b)
    decreases |events|
  {
    if events != [] {
      assert Step(states[0], events[0], states[1]) && !Selects(states[0], events[0], p);
      var k' := WaitingStep(states[0], events[0], states[1], p, b, k);
      var rest := RunTail(states, events);
      forall i | 0 <= i < |rest|
        ensures rest[i] != Remove(p) && p < |states[1..][i].state| && states[1..][i].state[p] == Runnable &&
                NoneBelow(states[1..][i], b)
        ensures !Selects(states[1..][i], rest[i], p)
      {
        assert rest[i] == events[i + 1] && states[1..][i] == states[i + 1];
      }
      PassedOver(states[1..], rest, p, b, k');
    }
  }

  /**
   * Bounded bypass: a process that stays RUNNABLE at position k of its bucket, with no RUNNABLE process in a
   * lower-numbered one, is returned by one of the first k + 1 + j dequeues, j being the joins of its bucket.
   */
  lemma BoundedBypass(states: seq<Sched>, events: seq<Event>, p: nat, b: nat, k: nat)
    requires Run(states, events) && b < PRIO_MAX && k < |states[0].buckets[b]| && states[0].buckets[b][k] == p
    requires Stays(states, events, p, b) && Dequeues(events) >= k + 1 + Joins(states, events, b)
    ensures exists i :: 0 <= i < |events| && Selects(states[i], events[i], p)
  {
    if forall i :: 0 <= i < |events| ==> !Selects(states[i], events[i], p) {
      PassedOver(states, events, p, b, k);
    }
  }
}
