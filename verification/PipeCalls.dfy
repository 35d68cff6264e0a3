/**
 * What a whole call of pipewrite, piperead or pipeclose comes to in any run of PipeProtocol, with whatever the
 * other processes do in between: which bytes it has put into the pipe or taken out, and what it returns.
 */
module PipeCalls {
  import opened Options
  import opened Blocks
  import opened SleepWakeup
  import opened PipeProtocol

  // ---- Bytes that one process moves ----

  /** What has been appended. */
  function Gain(was: seq<byte>, now: seq<byte>): seq<byte> {
    if was <= now then now[|was|..] else []
  }

  /** The bytes process p stores in the steps from a to b. */
  ghost function StoredBy(states: seq<Pipe>, events: seq<Event>, p: nat, a: nat, b: nat): seq<byte>
    requires a <= b < |states| == |events| + 1
  {
    if a == b then []
    else
      StoredBy(states, events, p, a, b - 1) +
      if events[b - 1] == Run(p) then Gain(states[b - 1].io.accepted, states[b].io.accepted) else []
  }

  /** The bytes process p takes out in the steps from a to b. */
  ghost function TakenBy(states: seq<Pipe>, events: seq<Event>, p: nat, a: nat, b: nat): seq<byte>
    requires a <= b < |states| == |events| + 1
  {
    if a == b then []
    else
      TakenBy(states, events, p, a, b - 1) +
      if events[b - 1] == Run(p) then Gain(states[b - 1].io.delivered, states[b].io.delivered) else []
  }

  // ---- Steps other than the process's own ----

  /** p stands where it stood, asleep or woken perhaps, and what it has locked is as it was. */
  ghost predicate Undisturbed(s: Pipe, s': Pipe, p: nat) {
    && p < |s.procs| == |s'.procs| && !s.procs[p].Idle? && !s'.procs[p].Idle? && s'.procs[p].k == s.procs[p].k
    && (s.procs[p].At? <==> s'.procs[p].At?)
    && (HoldsLk(s.procs[p]) ==>
          HoldsLk(s'.procs[p]) && s'.io == s.io && s'.readopen == s.readopen && s'.writeopen == s.writeopen)
  }

  lemma OthersDoNotDisturb(s: Pipe, e: Event, s': Pipe, p: nat)
    requires Safe(s) && Step(s, e, s') && e != Run(p) && p < |s.procs| && !s.procs[p].Idle?
    ensures Undisturbed(s, s', p)
  {
    assert HoldsLk(s.procs[p]) <==> s.lk == Some(p);
    assert HoldsLk(s.procs[e.p]) <==> s.lk == Some(e.p);
    hide Ring, Ends, Locks, Body, MayStart;
  }

  /** A step of its own that is not a piece of the call: acquiring, waking, sleeping. */
  lemma MovingOn(s: Pipe, p: nat, s': Pipe)
    requires Safe(s) && p < |s.procs| && Next(s, p) == Some(s') && !s.procs[p].At?
    ensures |s'.procs| == |s.procs| && !s'.procs[p].Idle? && s'.procs[p].k == s.procs[p].k && s'.io == s.io
    ensures s'.readopen == s.readopen && s'.writeopen == s.writeopen
  {
    hide Ring, Ends, Locks, Body;
  }

  // ---- pipewrite ----

  /** p is in pipewrite(buf), and has stored `stored` so far. */
  ghost predicate Writing(s: Pipe, p: nat, buf: seq<byte>, stored: seq<byte>) {
    && p < |s.procs| && !s.procs[p].Idle?
    && match s.procs[p].k {
         case Write(b, i) => b == buf && i <= |buf| && stored == buf[..i]
         case WriteSleep(b, i) => b == buf && i <= |buf| && stored == buf[..i]
         case Release(r) => HoldsLk(s.procs[p]) && r == |buf| && stored == buf
         case _ => false
       }
  }

  /** pipewrite(buf) is about to return in s: |buf|, with all stored; or -1, as the pipe is full and it may not wait. */
  ghost predicate WriteReturns(s: Pipe, p: nat, buf: seq<byte>, stored: seq<byte>) {
    && p < |s.procs| == |s.killed|
    && (|| (s.procs[p] == At(Release(|buf|)) && stored == buf)
        || (s.procs[p].At? && s.procs[p].k.Write? && |stored| < |buf| && stored == buf[..|stored|] && Full(s.io) &&
            (!s.readopen || s.killed[p])))
  }

  lemma WriteDoes(s: Pipe, p: nat, buf: seq<byte>, stored: seq<byte>)
    requires Safe(s) && p < |s.procs| && s.procs[p].At? && Writing(s, p, buf, stored)
    ensures var s' := Do(s, p, s.procs[p].k);
            if s'.procs[p].Idle? then WriteReturns(s, p, buf, stored) && s'.io == s.io
            else Writing(s', p, buf, stored + Gain(s.io.accepted, s'.io.accepted))
  {
    hide Ring, Ends, Locks, Full;
    var k := s.procs[p].k;
    assert stored + [] == stored;
    if k.Write? && k.i < |buf| {
      assert buf[..k.i] + [buf[k.i]] == buf[..k.i + 1];
    } else if k.Write? {
      assert buf[..k.i] == buf;
    }
  }

  lemma StepKeepsWriting(s: Pipe, e: Event, s': Pipe, p: nat, buf: seq<byte>, stored: seq<byte>)
    requires Safe(s) && Step(s, e, s') && Writing(s, p, buf, stored)
    ensures var stored' := stored + if e == Run(p) then Gain(s.io.accepted, s'.io.accepted) else [];
            if p < |s'.procs| && s'.procs[p].Idle? then
              e == Run(p) && WriteReturns(s, p, buf, stored) && stored' == stored
            else Writing(s', p, buf, stored')
  {
    assert stored + [] == stored;
    if e != Run(p) {
      OthersDoNotDisturb(s, e, s', p);
    } else if s.procs[p].At? {
      hide Safe, Writing, WriteReturns;
      WriteDoes(s, p, buf, stored);
    } else {
      MovingOn(s, p, s');
      assert HoldsLk(s.procs[p]) && s.procs[p].k.Release? ==> HoldsLk(s'.procs[p]);
    }
  }

  /** A call by p from event a on: it starts with that event, and is still going on up to state b. */
  ghost predicate Call(states: seq<Pipe>, events: seq<Event>, p: nat, k: Task, a: nat, b: nat) {
    && Execution(states, events) && a < b < |states| && events[a] == Start(p, k)
    && forall i: nat :: a < i < b ==> p < |states[i].procs| && states[i].procs[p] != Idle
  }

  /** It returns with the next step. */
  ghost predicate Returns(states: seq<Pipe>, events: seq<Event>, p: nat, k: Task, a: nat, b: nat) {
    Call(states, events, p, k, a, b) && p < |states[b].procs| && states[b].procs[p] == Idle
  }

  lemma CallStep(states: seq<Pipe>, events: seq<Event>, i: nat)
    requires Execution(states, events) && i < |events|
    ensures Step(states[i], events[i], states[i + 1])
  {
  }

  lemma CallStarts(states: seq<Pipe>, events: seq<Event>, p: nat, k: Task, a: nat, b: nat)
    requires Call(states, events, p, k, a, b)
    ensures p < |states[a + 1].procs| && states[a + 1].procs[p] == Lock(k)
    ensures StoredBy(states, events, p, a, a + 1) == TakenBy(states, events, p, a, a + 1) == []
  {
    CallStep(states, events, a);
    hide Execution;
  }

  lemma BeginsWriting(s: Pipe, p: nat, buf: seq<byte>)
    requires p < |s.procs| && s.procs[p] == Lock(Write(buf, 0))
    ensures Writing(s, p, buf, [])
  {
  }

  lemma {:induction false} WritingAt(states: seq<Pipe>, events: seq<Event>, p: nat, buf: seq<byte>, a: nat, b: nat,
                                     i: nat)
    requires Call(states, events, p, Write(buf, 0), a, b) && a < i < b
    ensures Writing(states[i], p, buf, StoredBy(states, events, p, a, i))
    decreases i
  {
    hide Step, Safe, Writing, Initial;
    if i == a + 1 {
      CallStarts(states, events, p, Write(buf, 0), a, b);
      BeginsWriting(states[i], p, buf);
    } else {
      WritingAt(states, events, p, buf, a, b, i - 1);
      RunIsSafe(states, events, i - 1);
      CallStep(states, events, i - 1);
      StepKeepsWriting(states[i - 1], events[i - 1], states[i], p, buf, StoredBy(states, events, p, a, i - 1));
    }
  }

  /**
   * A call of pipewrite that returns, in any run: either it returns the length of its buffer, and has stored exactly
   * that buffer; or it returns -1, and has stored a proper prefix of it, the pipe is full, and its read end is closed
   * or the writer killed.
   */
  lemma WriteCall(states: seq<Pipe>, events: seq<Event>, p: nat, buf: seq<byte>, a: nat, b: nat)
    requires Returns(states, events, p, Write(buf, 0), a, b)
    ensures WriteReturns(states[b - 1], p, buf, StoredBy(states, events, p, a, b))
  {
    hide Step, Safe, Writing, WriteReturns, Initial;
    CallStarts(states, events, p, Write(buf, 0), a, b);
    if b > a + 1 {
      WritingAt(states, events, p, buf, a, b, b - 1);
      RunIsSafe(states, events, b - 1);
      CallStep(states, events, b - 1);
      StepKeepsWriting(states[b - 1], events[b - 1], states[b], p, buf, StoredBy(states, events, p, a, b - 1));
    }
  }

  // ---- piperead ----

  /** p is in piperead for n bytes, and has taken `taken` so far. */
  ghost predicate Reading(s: Pipe, p: nat, n: nat, taken: seq<byte>) {
    && p < |s.procs| && !s.procs[p].Idle?
    && match s.procs[p].k {
         case ReadTest(m) => m == n && taken == []
         case ReadCopy(m, got) =>
           s.procs[p].At? && m == n && taken == got && |got| <= n && (got == [] && Empty(s.io) ==> !s.writeopen)
         case Release(r) => HoldsLk(s.procs[p]) && r == |taken| && TookAll(s, n, taken)
         case _ => false
       }
  }

  /** Fewer bytes than asked for only if there are no more, and none at all only if there will be no more. */
  ghost predicate TookAll(s: Pipe, n: nat, taken: seq<byte>) {
    |taken| <= n && (|taken| < n ==> Empty(s.io)) && (taken == [] && n > 0 ==> !s.writeopen)
  }

  /** piperead(n) is about to return in s: the number of bytes it has taken, or -1, as it is killed and may not wait. */
  ghost predicate ReadReturns(s: Pipe, p: nat, n: nat, taken: seq<byte>) {
    && p < |s.procs| == |s.killed|
    && (|| (s.procs[p] == At(Release(|taken|)) && TookAll(s, n, taken))
        || (s.procs[p] == At(ReadTest(n)) && taken == [] && Empty(s.io) && s.writeopen && s.killed[p]))
  }

  lemma ReadDoes(s: Pipe, p: nat, n: nat, taken: seq<byte>)
    requires Safe(s) && p < |s.procs| && s.procs[p].At? && Reading(s, p, n, taken)
    ensures var s' := Do(s, p, s.procs[p].k);
            if s'.procs[p].Idle? then ReadReturns(s, p, n, taken) && s'.io == s.io
            else Reading(s', p, n, taken + Gain(s.io.delivered, s'.io.delivered))
  {
    hide Ring, Ends, Locks, Empty;
    assert taken + [] == taken;
  }

  lemma StepKeepsReading(s: Pipe, e: Event, s': Pipe, p: nat, n: nat, taken: seq<byte>)
    requires Safe(s) && Step(s, e, s') && Reading(s, p, n, taken)
    ensures var taken' := taken + if e == Run(p) then Gain(s.io.delivered, s'.io.delivered) else [];
            if p < |s'.procs| && s'.procs[p].Idle? then e == Run(p) && ReadReturns(s, p, n, taken) && taken' == taken
            else Reading(s', p, n, taken')
  {
    assert taken + [] == taken;
    if e != Run(p) {
      OthersDoNotDisturb(s, e, s', p);
    } else if s.procs[p].At? {
      hide Safe, Reading, ReadReturns;
      ReadDoes(s, p, n, taken);
    } else {
      MovingOn(s, p, s');
      assert HoldsLk(s.procs[p]) && s.procs[p].k.Release? ==> HoldsLk(s'.procs[p]);
    }
  }

  lemma BeginsReading(s: Pipe, p: nat, n: nat)
    requires p < |s.procs| && s.procs[p] == Lock(ReadTest(n))
    ensures Reading(s, p, n, [])
  {
  }

  lemma {:induction false} ReadingAt(states: seq<Pipe>, events: seq<Event>, p: nat, n: nat, a: nat, b: nat, i: nat)
    requires Call(states, events, p, ReadTest(n), a, b) && a < i < b
    ensures Reading(states[i], p, n, TakenBy(states, events, p, a, i))
    decreases i
  {
    hide Step, Safe, Reading, Initial;
    if i == a + 1 {
      CallStarts(states, events, p, ReadTest(n), a, b);
      BeginsReading(states[i], p, n);
    } else {
      ReadingAt(states, events, p, n, a, b, i - 1);
      RunIsSafe(states, events, i - 1);
      CallStep(states, events, i - 1);
      StepKeepsReading(states[i - 1], events[i - 1], states[i], p, n, TakenBy(states, events, p, a, i - 1));
    }
  }

  /**
   * A call of piperead that returns, in any run: either the number of bytes it has taken, which is less than asked
   * for only if the pipe is empty, and 0 only if its write end is closed too; or -1, with nothing taken, from a
   * killed reader of an empty pipe.
   */
  lemma ReadCall(states: seq<Pipe>, events: seq<Event>, p: nat, n: nat, a: nat, b: nat)
    requires Returns(states, events, p, ReadTest(n), a, b)
    ensures ReadReturns(states[b - 1], p, n, TakenBy(states, events, p, a, b))
  {
    hide Step, Safe, Reading, ReadReturns, Initial;
    CallStarts(states, events, p, ReadTest(n), a, b);
    if b > a + 1 {
      ReadingAt(states, events, p, n, a, b, b - 1);
      RunIsSafe(states, events, b - 1);
      CallStep(states, events, b - 1);
      StepKeepsReading(states[b - 1], events[b - 1], states[b], p, n, TakenBy(states, events, p, a, b - 1));
    }
  }

  // ---- pipeclose ----

  /** An end without descriptors is closed, unless the call that closes it is still on its way. */
  ghost predicate ClosedEnds(s: Pipe) {
    && (!s.wfd && s.writeopen ==> exists p: nat :: p < |s.procs| && Closing(s.procs[p], true))
    && (!s.rfd && s.readopen ==> exists p: nat :: p < |s.procs| && Closing(s.procs[p], false))
  }

  lemma StepKeepsClosing(s: Pipe, e: Event, s': Pipe, p: nat, w: bool)
    requires Safe(s) && Step(s, e, s') && p < |s.procs| && Closing(s.procs[p], w)
    ensures |s'.procs| == |s.procs|
    ensures Closing(s'.procs[p], w) || (if w then !s'.writeopen else !s'.readopen)
  {
    if e != Run(p) {
      OthersDoNotDisturb(s, e, s', p);
    } else if !s.procs[p].At? {
      MovingOn(s, p, s');
    }
    hide Ring, Ends, Locks;
  }

  lemma StepKeepsClosedEnds(s: Pipe, e: Event, s': Pipe)
    requires Safe(s) && ClosedEnds(s) && Step(s, e, s')
    ensures ClosedEnds(s')
  {
    if e.Start? {
      assert s'.procs[e.p].k == e.k;
    }
    StepKeepsSafe(s, e, s');
    EndsOnlyClose(s, e, s');
    if !s'.wfd && s'.writeopen && !(e.Start? && e.k == Close(true)) {
      var p: nat :| p < |s.procs| && Closing(s.procs[p], true);
      StepKeepsClosing(s, e, s', p, true);
    } else if e.Start? && e.k == Close(true) {
      assert Closing(s'.procs[e.p], true);
    }
    if !s'.rfd && s'.readopen && !(e.Start? && e.k == Close(false)) {
      var p: nat :| p < |s.procs| && Closing(s.procs[p], false);
      StepKeepsClosing(s, e, s', p, false);
    } else if e.Start? && e.k == Close(false) {
      assert Closing(s'.procs[e.p], false);
    }
  }

  /** An end that is closed stays closed, and a descriptor goes only with a call of pipeclose. */
  lemma EndsOnlyClose(s: Pipe, e: Event, s': Pipe)
    requires Safe(s) && Step(s, e, s')
    ensures |s'.procs| == |s.procs|
    ensures (s'.writeopen ==> s.writeopen) && (s'.readopen ==> s.readopen)
    ensures (s'.wfd <==> s.wfd && !(e.Start? && e.k == Close(true)))
    ensures (s'.rfd <==> s.rfd && !(e.Start? && e.k == Close(false)))
  {
    hide Ring, Ends, Locks;
  }

  lemma {:induction false} ClosedEndsAt(states: seq<Pipe>, events: seq<Event>, i: nat)
    requires Execution(states, events) && i < |states|
    ensures ClosedEnds(states[i])
    decreases i
  {
    if i > 0 {
      ClosedEndsAt(states, events, i - 1);
      RunIsSafe(states, events, i - 1);
      assert Step(states[i - 1], events[i - 1], states[i]);
      StepKeepsClosedEnds(states[i - 1], events[i - 1], states[i]);
    }
  }

  /**
   * In every run an end of the pipe is open while a descriptor refers to it, and once nobody is in pipeclose for it
   * that is the only time it is.
   */
  lemma OpenExactlyWhileReferred(states: seq<Pipe>, events: seq<Event>, i: nat)
    requires Execution(states, events) && i < |states|
    ensures var s := states[i];
            && ((forall p: nat :: p < |s.procs| ==> !Closing(s.procs[p], true)) ==> (s.writeopen <==> s.wfd))
            && ((forall p: nat :: p < |s.procs| ==> !Closing(s.procs[p], false)) ==> (s.readopen <==> s.rfd))
  {
    ClosedEndsAt(states, events, i);
    RunIsSafe(states, events, i);
  }

  // ---- kill ----

  /** p has found that it has to wait, and will sleep without testing `killed` again. */
  predicate PastTest(pc: Proc) {
    pc.Sleep0? || (!pc.Idle? && pc.k.WriteSleep?)
  }

  /** p sleeps or is on its way to. */
  predicate Drowsy(pc: Proc) {
    PastTest(pc) || pc.Sleep1? || pc.Sleep2? || pc.Sleep3? || pc.Asleep?
  }

  /** Event j is a kill that comes too late for p's test and too early to wake it. */
  ghost predicate Missed(states: seq<Pipe>, events: seq<Event>, p: nat, j: nat) {
    j < |events| < |states| && events[j] == Kill(p) && p < |states[j].procs| && PastTest(states[j].procs[p])
  }

  /** Its own steps take a killed process past its test only if it was past it before. */
  lemma DrowsyRun(s: Pipe, p: nat, s': Pipe)
    requires Safe(s) && p < |s.procs| && Next(s, p) == Some(s') && s.killed[p] && Drowsy(s'.procs[p])
    ensures Drowsy(s.procs[p])
  {
    hide Ring, Ends, Locks, Full, Empty, Store, Fetch;
    if !s.procs[p].At? {
      MovingOn(s, p, s');
    }
  }

  lemma DrowsyOther(s: Pipe, e: Event, s': Pipe, p: nat)
    requires Safe(s) && Step(s, e, s') && e != Run(p) && p < |s.procs| && Drowsy(s'.procs[p])
    ensures Drowsy(s.procs[p]) && (e == Kill(p) ==> PastTest(s.procs[p]))
  {
    assert HoldsPt(s.procs[p]) <==> s.pt == Some(p);
    hide Ring, Ends, Locks, Body, MayStart;
    if e.Run? {
      assert HoldsPt(s.procs[e.p]) ==> Next(s, e.p) != None;
    }
  }

  lemma DrowsyStep(s: Pipe, e: Event, s': Pipe, p: nat)
    requires Safe(s) && Step(s, e, s') && p < |s'.procs| == |s.procs| == |s.killed| == |s'.killed|
    requires s'.killed[p] && Drowsy(s'.procs[p])
    ensures (s.killed[p] && Drowsy(s.procs[p])) || (e == Kill(p) && PastTest(s.procs[p]))
  {
    hide Safe, Drowsy, PastTest;
    KilledOnlyByKill(s, e, s');
    if e == Run(p) {
      DrowsyRun(s, p, s');
    } else {
      DrowsyOther(s, e, s', p);
    }
  }

  lemma KilledOnlyByKill(s: Pipe, e: Event, s': Pipe)
    requires Step(s, e, s')
    ensures s'.killed == if e.Kill? then s.killed[e.p := true] else s.killed
  {
    hide Body, MayStart;
  }

  lemma StepKeepsSizes(s: Pipe, e: Event, s': Pipe)
    requires Step(s, e, s')
    ensures |s'.procs| == |s.procs| == |s.killed| == |s'.killed|
  {
    hide Body, MayStart;
  }

  /** A killed process sleeps only if the kill came between its test and its sleep. */
  lemma {:induction false} KilledSleepsOnlyIfMissed(states: seq<Pipe>, events: seq<Event>, i: nat, p: nat)
    requires Execution(states, events) && i < |states| && p < |states[i].procs| == |states[i].killed|
    requires forall q :: 0 <= q < |states[0].killed| ==> !states[0].killed[q]
    requires states[i].killed[p] && Drowsy(states[i].procs[p])
    ensures exists j: nat :: j < i && Missed(states, events, p, j)
    decreases i
  {
    if i > 0 {
      var s, e, s' := states[i - 1], events[i - 1], states[i];
      CallStep(states, events, i - 1);
      RunIsSafe(states, events, i - 1);
      StepKeepsSizes(s, e, s');
      DrowsyStep(s, e, s', p);
      if e == Kill(p) && PastTest(s.procs[p]) {
        assert Missed(states, events, p, i - 1);
      } else {
        KilledSleepsOnlyIfMissed(states, events, i - 1, p);
      }
    }
  }

  /** Such a run: the lock is free, and a killed reader sleeps on an empty pipe that nobody may ever write. */
  lemma KillMissed() returns (s: Pipe)
    ensures Reachable(s) && s.lk == None && s.pt == None && Empty(s.io) && s.writeopen
    ensures s.procs == [Asleep(Rd, ReadTest(1)), Idle] && s.killed == [true, false]
  {
    hide Reachable, Safe;
    s := Pipe(None, None, Buffer(Zeros(PIPESIZE), 0, 0, [], []), true, true, true, true, [Idle, Idle], [false, false]);
    InitialIsReachable(s);
    s := StartOne(s, 0, ReadTest(1));
    s := RunOne(s, 0);
    s := RunOne(s, 0);
    var dead := Goto(s, 0, s.procs[0]).(killed := s.killed[0 := true]);
    ReachMore(s, Kill(0), dead);
    s := SleepThrough(dead, 0);
  }
}
