/**
 * Monitors (src/runtime/locks.c, with the queue operations of
 * src/runtime/thread-internal.c): a packed lock word, a queue of threads waiting for
 * the lock and a queue of threads waiting for a signal.
 *
 * Threads are cooperative.  A step is what one thread does between two suspension
 * points; which thread steps next is arbitrary.
 */
module Monitor {
  type Tid = int

  // ---------------------------------------------------------------------------
  // The lock word
  // ---------------------------------------------------------------------------

  const OWNERS := 0x10000          // owner ids take 16 bits
  const HAS_WAITERS := 0x10000     // bit 16
  const SEMAPHORE_UNIT := 0x20000  // bits 17 to 31 count the nested locks
  const MAX_DEPTH := 0x7fff

  datatype Word = Word(sem: int, hasWaiters: bool, owner: Tid)

  ghost predicate WordOk(w: Word) { 0 <= w.sem <= MAX_DEPTH && 0 <= w.owner < OWNERS }

  function Pack(w: Word): int { w.sem * SEMAPHORE_UNIT + (if w.hasWaiters then HAS_WAITERS else 0) + w.owner }

  // What the masks of the code extract from a word.
  function Sem(i: int): int { i / SEMAPHORE_UNIT }
  function Owner(i: int): int { i % OWNERS }
  predicate HasWaiters(i: int) { i / HAS_WAITERS % 2 == 1 }

  /** Unpacking a packed word gives its fields back. */
  lemma Unpack(w: Word)
    requires WordOk(w)
    ensures Sem(Pack(w)) == w.sem && Owner(Pack(w)) == w.owner && HasWaiters(Pack(w)) == w.hasWaiters
    ensures Pack(w) / HAS_WAITERS == 1 <==> w.sem == 0 && w.hasWaiters
  {
    var high := 2 * w.sem + if w.hasWaiters then 1 else 0;
    assert Pack(w) == high * HAS_WAITERS + w.owner;
  }

  // ---------------------------------------------------------------------------
  // States and steps
  // ---------------------------------------------------------------------------

  /** Where a thread is. */
  datatype Pc =
    | Outside                  // in no monitor operation
    | Entering                 // taken off the waiter queue, about to try again in _lockMutex
    | Blocked                  // on the waiter queue, in _lockMutex
    | Waiting(saved: Word)     // on the condition queue, in _waitCond
    | Moved(saved: Word)       // on the waiter queue, in _waitCond
    | Returning(saved: Word)   // taken off the waiter queue, about to try again in _waitCond

  /** The monitor and its threads; `depth` counts the locks a thread has taken and not released. */
  datatype State = State(word: Word, waiters: seq<Tid>, conds: seq<Tid>, pc: map<Tid, Pc>, depth: map<Tid, int>)

  /** A thread taken off the waiter queue is about to try again. */
  function Woken(pc: Pc): Pc
  {
    match pc
    case Blocked => Entering
    case Moved(saved) => Returning(saved)
    case _ => pc
  }

  ghost predicate OnWaiters(pc: Pc) { pc.Blocked? || pc.Moved? }
  ghost predicate Retrying(pc: Pc) { pc.Entering? || pc.Returning? }
  ghost predicate InWait(pc: Pc) { pc.Waiting? || pc.Moved? || pc.Returning? }

  /** Thread t is inside the monitor. */
  ghost predicate Holds(s: State, t: Tid) { t in s.pc && t in s.depth && s.pc[t].Outside? && s.depth[t] > 0 }

  /** wakeup_waiter: the first waiter is dequeued and resumed; the last one clears the word. */
  function WakeWaiter(s: State): State
    requires s.waiters != [] && s.waiters[0] in s.pc
  {
    var t := s.waiters[0];
    s.(waiters := s.waiters[1..], pc := s.pc[t := Woken(s.pc[t])],
       word := if |s.waiters| == 1 then Word(0, false, 0) else s.word)
  }

  /** One iteration of the loop of _lockMutex. */
  function LockStep(s: State, t: Tid): State
    requires t in s.pc && t in s.depth
  {
    if s.word.sem == 0 || s.word.owner == t then
      s.(word := s.word.(sem := s.word.sem + 1, owner := t), pc := s.pc[t := Outside],
          depth := s.depth[t := s.depth[t] + 1])
    else
      s.(word := s.word.(hasWaiters := true), waiters := [t] + s.waiters, pc := s.pc[t := Blocked])
  }

  /** _unlockMutex */
  function UnlockStep(s: State, t: Tid): State
    requires t in s.depth && (s.waiters != [] ==> s.waiters[0] in s.pc)
  {
    var r := s.(word := s.word.(sem := s.word.sem - 1), depth := s.depth[t := s.depth[t] - 1]);
    if r.word.sem == 0 && r.word.hasWaiters && r.waiters != [] then WakeWaiter(r) else r
  }

  /** The first part of _waitCond: release the monitor and wait for a signal. */
  function WaitStep(s: State, t: Tid): State
    requires t in s.pc && (s.waiters != [] ==> s.waiters[0] in s.pc)
  {
    var free := s.(word := Word(0, s.word.hasWaiters, 0));
    var r := if s.waiters == [] then free else WakeWaiter(free);
    r.(conds := [t] + r.conds, pc := r.pc[t := Waiting(s.word)])
  }

  /** One iteration of the loop of _waitCond, and what follows it. */
  function ResumeStep(s: State, t: Tid): State
    requires t in s.pc && s.pc[t].Returning?
  {
    if s.word.sem > 0 then
      s.(word := s.word.(hasWaiters := true), waiters := [t] + s.waiters, pc := s.pc[t := Moved(s.pc[t].saved)])
    else
      s.(word := s.pc[t].saved.(hasWaiters := s.waiters != []), pc := s.pc[t := Outside])
  }

  /** _signalCond: the first waiting thread moves to the waiter queue. */
  function SignalStep(s: State): State
    requires s.conds != [] ==> s.conds[0] in s.pc && s.pc[s.conds[0]].Waiting?
  {
    if s.conds == [] then s
    else
      var t := s.conds[0];
      s.(conds := s.conds[1..], waiters := [t] + s.waiters, word := s.word.(hasWaiters := true),
          pc := s.pc[t := Moved(s.pc[t].saved)])
  }

  /** _broadcastCond: all of them do. */
  function BroadcastStep(s: State): State
  {
    if s.conds == [] then s
    else
      s.(conds := [], waiters := s.conds + s.waiters, word := s.word.(hasWaiters := true),
         pc := map t | t in s.pc :: if t in s.conds && s.pc[t].Waiting? then Moved(s.pc[t].saved) else s.pc[t])
  }

  // ---------------------------------------------------------------------------
  // The invariant
  // ---------------------------------------------------------------------------

  ghost predicate Distinct(q: seq<Tid>) { forall i, j :: 0 <= i < j < |q| ==> q[i] != q[j] }

  /** Every blocked thread is on exactly one queue, and no other thread is on any. */
  ghost predicate QueuesOk(s: State)
  {
    && Distinct(s.waiters) && Distinct(s.conds)
    && (forall t :: t in s.waiters <==> t in s.pc && OnWaiters(s.pc[t]))
    && (forall t :: t in s.conds <==> t in s.pc && s.pc[t].Waiting?)
  }

  /** The semaphore is the depth of the one thread inside, and a thread in a wait has its depth on record. */
  ghost predicate DepthOk(s: State, t: Tid)
    requires t in s.pc && t in s.depth
  {
    && 0 < t < OWNERS && 0 <= s.depth[t]
    && (s.pc[t].Outside? && s.depth[t] > 0 ==> s.word.owner == t && s.word.sem == s.depth[t])
    && (s.pc[t].Entering? || s.pc[t].Blocked? ==> s.depth[t] == 0)
    && (InWait(s.pc[t]) ==> s.pc[t].saved.sem == s.depth[t] && s.pc[t].saved.owner == t && WordOk(s.pc[t].saved))
  }

  /** A taken lock has its owner inside. */
  ghost predicate OwnerInside(s: State) { s.word.sem > 0 ==> Holds(s, s.word.owner) }

  /** What every step keeps that the code lets through. */
  ghost predicate Safe(s: State)
  {
    && WordOk(s.word) && s.pc.Keys == s.depth.Keys && QueuesOk(s) && OwnerInside(s)
    && (forall t :: t in s.pc ==> DepthOk(s, t))
    && (s.word.hasWaiters <==> s.waiters != [])
  }

  /** What every step keeps if only threads inside the monitor wait and signal. */
  ghost predicate Inv(s: State) { Safe(s) && NoLostWakeup(s) && DeepWaits(s) }

  /** Whoever waits was inside. */
  ghost predicate DeepWaits(s: State) { forall t :: t in s.pc && InWait(s.pc[t]) ==> s.pc[t].saved.sem > 0 }

  /** If the lock is free while threads queue for it, one that was dequeued is about to try again. */
  ghost predicate NoLostWakeup(s: State)
  {
    s.word.sem == 0 && s.waiters != [] ==> exists t :: t in s.pc && Retrying(s.pc[t])
  }

  /** At most one thread is inside, and the semaphore is its nesting depth. */
  lemma MutualExclusion(s: State, t: Tid, u: Tid)
    requires Safe(s) && Holds(s, t)
    ensures Holds(s, u) ==> u == t
    ensures s.word.sem == s.depth[t] && s.word.owner == t
  {
    assert DepthOk(s, t);
    if Holds(s, u) { assert DepthOk(s, u); }
  }

  // ---------------------------------------------------------------------------
  // Every step keeps it
  // ---------------------------------------------------------------------------

  /** Thread t suspends itself at the head of the waiter queue. */
  lemma JoinWaiters(s: State, t: Tid, pc: Pc)
    requires QueuesOk(s) && t in s.pc && !OnWaiters(s.pc[t]) && !s.pc[t].Waiting? && OnWaiters(pc)
    ensures QueuesOk(s.(waiters := [t] + s.waiters, pc := s.pc[t := pc]))
  {
    var r := s.(waiters := [t] + s.waiters, pc := s.pc[t := pc]);
    assert t !in s.waiters && t !in s.conds;
    forall u
      ensures u in r.waiters <==> u in r.pc && OnWaiters(r.pc[u])
    {
      assert u in r.waiters <==> u == t || u in s.waiters;
    }
  }

  /** A thread that is on no queue changes its place without joining one. */
  lemma StayOff(s: State, t: Tid, pc: Pc)
    requires QueuesOk(s) && t in s.pc && !OnWaiters(s.pc[t]) && !s.pc[t].Waiting? && !OnWaiters(pc) && !pc.Waiting?
    ensures QueuesOk(s.(pc := s.pc[t := pc]))
  {
  }

  lemma LeaveWaiters(s: State)
    requires QueuesOk(s) && s.waiters != []
    ensures var t := s.waiters[0];
            t in s.pc && OnWaiters(s.pc[t]) && QueuesOk(s.(waiters := s.waiters[1..], pc := s.pc[t := Woken(s.pc[t])]))
  {
    var t := s.waiters[0];
    var r := s.(waiters := s.waiters[1..], pc := s.pc[t := Woken(s.pc[t])]);
    assert s.waiters == [t] + s.waiters[1..] && t in s.waiters && t !in s.conds;
    assert t !in s.waiters[1..];
  }

  /** Distinct, membership: what a queue predicate needs from word changes is nothing. */
  lemma QueuesOnly(s: State, r: State)
    requires QueuesOk(s) && r.waiters == s.waiters && r.conds == s.conds && r.pc == s.pc
    ensures QueuesOk(r)
  {
  }

  ghost predicate CanLock(s: State, t: Tid)
  {
    && t in s.pc && (s.pc[t].Outside? || s.pc[t].Entering?)
    && (s.word.sem == 0 || s.word.owner == t ==> s.word.sem < MAX_DEPTH)
  }

  /** No thread but t has another depth than before. */
  ghost predicate OtherDepths(s: State, r: State, t: Tid)
  {
    r.depth.Keys == s.depth.Keys && forall u :: u in s.depth && u != t ==> r.depth[u] == s.depth[u]
  }

  /**
   * A thread gets the lock exactly if it is free or its own; then it is one level deeper, and so
   * is the semaphore.  Otherwise it is the first on the waiter queue.
   */
  lemma LockKeeps(s: State, t: Tid)
    requires Safe(s) && CanLock(s, t)
    ensures Safe(LockStep(s, t)) && (Inv(s) ==> Inv(LockStep(s, t)))
    ensures var r := LockStep(s, t);
            && OtherDepths(s, r, t) && (Holds(r, t) <==> s.word.sem == 0 || Holds(s, t))
            && (Holds(r, t) ==> r.depth[t] == s.depth[t] + 1 == r.word.sem && r.waiters == s.waiters)
            && (!Holds(r, t) ==> r.pc[t].Blocked? && r.depth[t] == s.depth[t] && r.waiters == [t] + s.waiters)
            && r.conds == s.conds
  {
    var r := LockStep(s, t);
    assert DepthOk(s, t);
    if s.word.sem == 0 || s.word.owner == t {
      StayOff(s, t, Outside);
      forall u | u in r.pc ensures DepthOk(r, u) { assert DepthOk(s, u); }
    } else {
      assert !Holds(s, t) && Holds(s, s.word.owner);
      JoinWaiters(s, t, Blocked);
      forall u | u in r.pc ensures DepthOk(r, u) { assert DepthOk(s, u); }
    }
  }

  /** Once a dequeued thread is about to try again, no wakeup is lost. */
  lemma Awake(s: State, t: Tid)
    requires t in s.pc && Retrying(s.pc[t])
    ensures NoLostWakeup(s)
  {
  }

  lemma UnlockKeeps(s: State, t: Tid)
    requires Safe(s) && Holds(s, t)
    ensures (s.waiters != [] ==> s.waiters[0] in s.pc) && Safe(UnlockStep(s, t)) && (Inv(s) ==> Inv(UnlockStep(s, t)))
    ensures var r := UnlockStep(s, t);
            && OtherDepths(s, r, t) && r.word.sem == r.depth[t] == s.depth[t] - 1 && r.conds == s.conds
            && (r.word.sem == 0 && s.waiters != [] ==> r.waiters == s.waiters[1..] && Retrying(r.pc[s.waiters[0]]))
            && (r.word.sem > 0 ==> r.waiters == s.waiters && r.pc == s.pc)
  {
    if s.waiters != [] { LeaveWaiters(s); }
    var r := UnlockStep(s, t);
    assert DepthOk(s, t);
    forall u | u in r.pc ensures DepthOk(r, u) { assert DepthOk(s, u); }
    if s.word.sem == 1 && s.waiters != [] {
      Awake(r, s.waiters[0]);
    } else {
      QueuesOnly(s, r);
    }
  }

  /** The check of wait, signal and broadcast: the owner field is the caller. */
  ghost predicate PassesCheck(s: State, t: Tid) { t in s.pc && s.pc[t].Outside? && s.word.owner == t }

  /** The caller's depth is what it finds in the word. */
  lemma CheckedDepth(s: State, t: Tid)
    requires Safe(s) && PassesCheck(s, t)
    ensures t in s.depth && s.depth[t] == s.word.sem && (Holds(s, t) <==> s.word.sem > 0)
  {
    assert DepthOk(s, t);
  }

  /** A wait keeps the invariant exactly if the caller is inside. */
  lemma WaitKeeps(s: State, t: Tid)
    requires Safe(s) && PassesCheck(s, t)
    ensures (s.waiters != [] ==> s.waiters[0] in s.pc) && Safe(WaitStep(s, t))
    ensures Inv(s) ==> (Inv(WaitStep(s, t)) <==> Holds(s, t))
    ensures WaitStep(s, t).conds == [t] + s.conds && WaitStep(s, t).word.sem == 0
    ensures WaitStep(s, t).pc[t] == Waiting(s.word)
    ensures s.waiters != [] ==> WaitStep(s, t).waiters == s.waiters[1..] && Retrying(WaitStep(s, t).pc[s.waiters[0]])
  {
    if s.waiters != [] { LeaveWaiters(s); }
    var r := WaitStep(s, t);
    CheckedDepth(s, t);
    assert t !in s.waiters && t !in s.conds;
    forall u | u in r.pc ensures DepthOk(r, u) {
      assert DepthOk(s, u);
      if u != t && Holds(s, u) { MutualExclusion(s, u, t); }
    }
    WaitQueues(s, t);
    if s.waiters != [] { Awake(r, s.waiters[0]); }
  }

  lemma WaitQueues(s: State, t: Tid)
    requires QueuesOk(s) && t in s.pc && s.pc[t].Outside? && (s.waiters != [] ==> s.waiters[0] in s.pc)
    ensures QueuesOk(WaitStep(s, t))
  {
    var r := WaitStep(s, t);
    assert t !in s.waiters && t !in s.conds;
    if s.waiters != [] { LeaveWaiters(s); }
    forall u
      ensures u in r.conds <==> u in r.pc && r.pc[u].Waiting?
    {
      assert u in r.conds <==> u == t || u in s.conds;
    }
  }

  /** The end of a wait: the thread has the depth it had, so it is inside the monitor again if it was inside before. */
  lemma ResumeKeeps(s: State, t: Tid)
    requires Safe(s) && t in s.pc && s.pc[t].Returning?
    ensures Safe(ResumeStep(s, t)) && (Inv(s) ==> Inv(ResumeStep(s, t)))
    ensures ResumeStep(s, t).pc[t].Outside? ==>
            ResumeStep(s, t).word.sem == s.pc[t].saved.sem == s.depth[t] == ResumeStep(s, t).depth[t]
    ensures ResumeStep(s, t).pc[t].Outside? ==> (Holds(ResumeStep(s, t), t) <==> s.pc[t].saved.sem > 0)
    ensures ResumeStep(s, t).pc[t].Outside? <==> s.word.sem == 0
    ensures ResumeStep(s, t).waiters == if s.word.sem == 0 then s.waiters else [t] + s.waiters
  {
    var r := ResumeStep(s, t);
    assert DepthOk(s, t);
    if s.word.sem > 0 {
      JoinWaiters(s, t, Moved(s.pc[t].saved));
    } else {
      StayOff(s, t, Outside);
    }
    forall u | u in r.pc ensures DepthOk(r, u) { assert DepthOk(s, u); }
  }

  lemma SignalKeeps(s: State)
    requires Safe(s)
    ensures (s.conds != [] ==> s.conds[0] in s.pc && s.pc[s.conds[0]].Waiting?) && Safe(SignalStep(s))
    ensures s.conds != [] ==> SignalStep(s).waiters == [s.conds[0]] + s.waiters && SignalStep(s).conds == s.conds[1..]
  {
    if s.conds != [] {
      var u := s.conds[0];
      assert u in s.conds;
      var r := SignalStep(s);
      SignalQueues(s);
      assert DepthOk(s, u);
      forall v | v in r.pc ensures DepthOk(r, v) { assert DepthOk(s, v); }
    }
  }

  lemma BroadcastKeeps(s: State)
    requires Safe(s)
    ensures Safe(BroadcastStep(s))
    ensures BroadcastStep(s).waiters == s.conds + s.waiters && BroadcastStep(s).conds == []
  {
    if s.conds != [] {
      var r := BroadcastStep(s);
      BroadcastQueues(s);
      forall v | v in r.pc ensures DepthOk(r, v) { assert DepthOk(s, v); }
    } else {
      assert s.conds + s.waiters == s.waiters;
    }
  }

  lemma BroadcastQueues(s: State)
    requires QueuesOk(s) && s.conds != []
    ensures QueuesOk(BroadcastStep(s))
  {
    var r := BroadcastStep(s);
    forall v
      ensures v in r.waiters <==> v in r.pc && OnWaiters(r.pc[v])
    {
      assert v in r.waiters <==> v in s.conds || v in s.waiters;
    }
    forall i, j | 0 <= i < j < |r.waiters| ensures r.waiters[i] != r.waiters[j] {
      if i < |s.conds| <= j { assert r.waiters[i] in s.conds && r.waiters[j] in s.waiters; }
    }
  }

  // ---------------------------------------------------------------------------
  // Runs
  // ---------------------------------------------------------------------------

  datatype Step = Lock(t: Tid) | Unlock(t: Tid) | Wait(t: Tid) | Resume(t: Tid) | Signal(t: Tid) | Broadcast(t: Tid)

  /** Only a thread inside the monitor unlocks; wait, signal and broadcast check the owner field. */
  ghost predicate Allowed(s: State, a: Step)
  {
    match a
    case Lock(t) => CanLock(s, t)
    case Unlock(t) => Holds(s, t)
    case Resume(t) => t in s.pc && s.pc[t].Returning?
    case _ => PassesCheck(s, a.t)
  }

  ghost predicate Next(s: State, a: Step, r: State)
  {
    && Safe(s) && Allowed(s, a)
    && match a
       case Lock(t) => t in s.depth && r == LockStep(s, t)
       case Unlock(t) => (s.waiters != [] ==> s.waiters[0] in s.pc) && r == UnlockStep(s, t)
       case Wait(t) => (s.waiters != [] ==> s.waiters[0] in s.pc) && r == WaitStep(s, t)
       case Resume(t) => r == ResumeStep(s, t)
       case Signal(t) => (s.conds != [] ==> s.conds[0] in s.pc && s.pc[s.conds[0]].Waiting?) && r == SignalStep(s)
       case Broadcast(t) => r == BroadcastStep(s)
  }

  /** The caller of wait, signal or broadcast is inside. */
  ghost predicate Proper(s: State, a: Step) { a.Wait? || a.Signal? || a.Broadcast? ==> Holds(s, a.t) }

  lemma StepKeeps(s: State, a: Step, r: State)
    requires Next(s, a, r)
    ensures Safe(r) && r.pc.Keys == s.pc.Keys && (Inv(s) && Proper(s, a) ==> Inv(r))
  {
    hide Inv, Safe;
    match a
    case Lock(t) => LockKeeps(s, t);
    case Unlock(t) => UnlockKeeps(s, t);
    case Wait(t) => WaitKeeps(s, t);
    case Resume(t) => ResumeKeeps(s, t);
    case Signal(t) => SignalKeeps(s); if Inv(s) { SignalSafe(s); HolderTakes(s, t); }
    case Broadcast(t) => BroadcastKeeps(s); if Inv(s) { BroadcastSafe(s); HolderTakes(s, t); }
  }

  lemma HolderTakes(s: State, t: Tid)
    requires Inv(s)
    ensures Holds(s, t) ==> s.word.sem > 0
  {
    if Holds(s, t) { assert DepthOk(s, t); }
  }

  /** An allowed step can be taken. */
  lemma StepExists(s: State, a: Step) returns (r: State)
    requires Safe(s) && Allowed(s, a)
    ensures Next(s, a, r)
  {
    match a
    case Lock(t) => r := LockStep(s, t);
    case Unlock(t) => UnlockKeeps(s, t); r := UnlockStep(s, t);
    case Wait(t) => WaitKeeps(s, t); r := WaitStep(s, t);
    case Resume(t) => r := ResumeStep(s, t);
    case Signal(t) => SignalKeeps(s); r := SignalStep(s);
    case Broadcast(t) => r := BroadcastStep(s);
  }

  /** The monitor at the start: free, with every thread outside. */
  ghost function Initial(threads: set<Tid>): State
  {
    State(Word(0, false, 0), [], [], map t | t in threads :: Outside, map t | t in threads :: 0)
  }

  ghost predicate IsRun(states: seq<State>, steps: seq<Step>)
  {
    |states| == |steps| + 1 && forall i :: 0 <= i < |steps| ==> Next(states[i], steps[i], states[i + 1])
  }

  lemma InitialInv(threads: set<Tid>)
    requires forall t :: t in threads ==> 0 < t < OWNERS
    ensures Inv(Initial(threads))
  {
    var s := Initial(threads);
    forall t | t in s.pc ensures DepthOk(s, t) {}
  }

  /** Over every interleaving of what the code lets through: mutual exclusion, exact depth, exact queues. */
  lemma {:induction false} SafeRun(threads: set<Tid>, states: seq<State>, steps: seq<Step>, i: nat)
    requires (forall t :: t in threads ==> 0 < t < OWNERS) && IsRun(states, steps) && states[0] == Initial(threads)
    requires i < |states|
    ensures Safe(states[i]) && states[i].pc.Keys == threads
    decreases i
  {
    if i == 0 {
      InitialInv(threads);
    } else {
      SafeRun(threads, states, steps, i - 1);
      StepKeeps(states[i - 1], steps[i - 1], states[i]);
    }
  }

  /** If only threads inside wait and signal, no wakeup is lost either. */
  lemma {:induction false} RunKeeps(threads: set<Tid>, states: seq<State>, steps: seq<Step>, i: nat)
    requires (forall t :: t in threads ==> 0 < t < OWNERS) && IsRun(states, steps) && states[0] == Initial(threads)
    requires i < |states|
    requires forall k :: 0 <= k < i ==> Proper(states[k], steps[k])
    ensures Inv(states[i]) && states[i].pc.Keys == threads
    decreases i
  {
    hide Inv, Next, Proper;
    if i == 0 {
      InitialInv(threads);
    } else {
      RunKeeps(threads, states, steps, i - 1);
      StepKeeps(states[i - 1], steps[i - 1], states[i]);
    }
  }

  /** How often thread t has got the lock in the first i steps, and how often it has released it. */
  ghost function Taken(states: seq<State>, steps: seq<Step>, i: nat, t: Tid): nat
    requires |states| == |steps| + 1 && i <= |steps|
  {
    if i == 0 then 0
    else Taken(states, steps, i - 1, t) +
         if steps[i - 1] == Lock(t) && t in states[i].pc && states[i].pc[t].Outside? then 1 else 0
  }

  ghost function Released(steps: seq<Step>, i: nat, t: Tid): nat
    requires i <= |steps|
  {
    if i == 0 then 0 else Released(steps, i - 1, t) + if steps[i - 1] == Unlock(t) then 1 else 0
  }

  /** Only locking and unlocking change a thread's depth, by one. */
  lemma StepDepth(s: State, a: Step, r: State, t: Tid)
    requires Next(s, a, r) && t in s.depth
    ensures t in r.depth && t in r.pc
    ensures r.depth[t] == s.depth[t] + (if a == Lock(t) && r.pc[t].Outside? then 1 else 0)
                          - (if a == Unlock(t) then 1 else 0)
  {
    StepKeeps(s, a, r);
    hide Inv;
    match a {
      case Lock(u) => LockKeeps(s, u);
      case Unlock(u) => UnlockKeeps(s, u);
      case Wait(u) =>
      case Resume(u) =>
      case Signal(u) =>
      case Broadcast(u) =>
    }
  }

  /**
   * On every run, a thread's depth is the number of times it got the lock less the number of
   * times it released it.  Unless it waits it is inside exactly if that is positive, and then
   * the semaphore is that number.
   */
  lemma {:induction false} RunDepth(threads: set<Tid>, states: seq<State>, steps: seq<Step>, i: nat, t: Tid)
    requires (forall t :: t in threads ==> 0 < t < OWNERS) && IsRun(states, steps) && states[0] == Initial(threads)
    requires i < |states| && t in threads
    ensures var n := Taken(states, steps, i, t) - Released(steps, i, t);
            && t in states[i].pc && t in states[i].depth && states[i].depth[t] == n
            && (states[i].pc[t].Outside? && n > 0 <==> Holds(states[i], t))
            && (Holds(states[i], t) ==> states[i].word.sem == n && states[i].word.owner == t)
    decreases i
  {
    hide Next;
    SafeRun(threads, states, steps, i);
    if i > 0 {
      RunDepth(threads, states, steps, i - 1, t);
      StepDepth(states[i - 1], steps[i - 1], states[i], t);
    }
    if Holds(states[i], t) { MutualExclusion(states[i], t, t); }
  }

  /** A thread in a wait keeps its depth and its record of it, whatever the others do. */
  lemma WaitStable(s: State, a: Step, r: State, t: Tid)
    requires Next(s, a, r) && t in s.pc && InWait(s.pc[t])
    ensures t in r.pc && t in r.depth && t in s.depth && r.depth[t] == s.depth[t]
    ensures (InWait(r.pc[t]) && r.pc[t].saved == s.pc[t].saved) ||
            (a == Resume(t) && r.pc[t].Outside? && r.word.sem == r.depth[t])
  {
    assert DepthOk(s, t);
    match a {
      case Unlock(u) => assert DepthOk(s, u); if s.waiters != [] { LeaveWaiters(s); }
      case Wait(u) => assert DepthOk(s, u); if s.waiters != [] { LeaveWaiters(s); }
      case Resume(u) => ResumeKeeps(s, u);
      case Lock(u) =>
      case Signal(u) =>
      case Broadcast(u) =>
    }
  }

  /**
   * From its call of wait to its return, however long, a thread's depth is the same.  So it
   * is inside the monitor when it returns if and only if it was inside when it called.
   */
  lemma {:induction false} WaitReturnsDepth(states: seq<State>, steps: seq<Step>, t: Tid, i: nat, j: nat)
    requires IsRun(states, steps) && i <= j < |steps| && t in states[i].pc && InWait(states[i].pc[t])
    requires forall k :: i <= k <= j ==> t in states[k].pc && InWait(states[k].pc[t])
    requires t in states[j + 1].pc && states[j + 1].pc[t].Outside?
    ensures t in states[i].depth && t in states[j + 1].depth
    ensures states[j + 1].depth[t] == states[i].depth[t] == states[j + 1].word.sem
    ensures Holds(states[j + 1], t) <==> states[i].depth[t] > 0
    decreases j - i
  {
    assert Next(states[i], steps[i], states[i + 1]);
    WaitStable(states[i], steps[i], states[i + 1], t);
    if i < j { WaitReturnsDepth(states, steps, t, i + 1, j); }
  }

  // ---------------------------------------------------------------------------
  // The owner check
  // ---------------------------------------------------------------------------

  /**
   * wait and signal throw IllegalMonitorStateException unless the owner field is the calling
   * thread.  Unlocking leaves that field as it is, so the check tells whether the caller is
   * inside exactly if the lock is not one that the caller released last.
   */
  lemma OwnerCheckExact(s: State, t: Tid)
    requires Safe(s) && t in s.pc && s.pc[t].Outside?
    ensures (s.word.owner == t <==> Holds(s, t)) <==> !(s.word.sem == 0 && s.word.owner == t)
  {
    assert DepthOk(s, t);
  }

  /** A signal keeps the invariant exactly if someone is inside, or someone is about to try again, or nobody waits. */
  lemma SignalSafe(s: State)
    requires Inv(s)
    ensures s.conds != [] ==> s.conds[0] in s.pc && s.pc[s.conds[0]].Waiting?
    ensures Inv(SignalStep(s)) <==> s.conds == [] || s.word.sem > 0 || exists t :: t in s.pc && Retrying(s.pc[t])
  {
    SignalKeeps(s);
    if s.conds != [] {
      var r := SignalStep(s);
      assert forall t :: t in s.pc ==>
               (Retrying(r.pc[t]) <==> Retrying(s.pc[t])) && (InWait(r.pc[t]) <==> InWait(s.pc[t]));
      SameRetries(s, r);
    }
  }

  /** So does a broadcast. */
  lemma BroadcastSafe(s: State)
    requires Inv(s)
    ensures Inv(BroadcastStep(s)) <==> s.conds == [] || s.word.sem > 0 || exists t :: t in s.pc && Retrying(s.pc[t])
  {
    BroadcastKeeps(s);
    if s.conds != [] {
      var r := BroadcastStep(s);
      assert forall t :: t in s.pc ==>
               (Retrying(r.pc[t]) <==> Retrying(s.pc[t])) && (InWait(r.pc[t]) <==> InWait(s.pc[t]));
      SameRetries(s, r);
    }
  }

  lemma SameRetries(s: State, r: State)
    requires r.pc.Keys == s.pc.Keys && forall t :: t in s.pc ==> (Retrying(r.pc[t]) <==> Retrying(s.pc[t]))
    ensures (exists t :: t in r.pc && Retrying(r.pc[t])) <==> exists t :: t in s.pc && Retrying(s.pc[t])
  {
    if t :| t in r.pc && Retrying(r.pc[t]) { assert t in s.pc && Retrying(s.pc[t]); }
    if t :| t in s.pc && Retrying(s.pc[t]) { assert t in r.pc && Retrying(r.pc[t]); }
  }

  lemma SignalQueues(s: State)
    requires QueuesOk(s) && s.conds != [] && s.conds[0] in s.pc && s.pc[s.conds[0]].Waiting?
    ensures QueuesOk(SignalStep(s))
  {
    var u, r := s.conds[0], SignalStep(s);
    assert u in s.conds && u !in s.conds[1..] && u !in s.waiters && s.conds == [u] + s.conds[1..];
    forall v
      ensures v in r.waiters <==> v in r.pc && OnWaiters(r.pc[v])
    {
      assert v in r.waiters <==> v == u || v in s.waiters;
    }
  }

  /**
   * The check lets a thread through that is not inside, and a wakeup is lost: thread 2 waits,
   * thread 1 locks and unlocks, and then signals.
   */
  lemma StaleOwnerLosesWakeup()
    ensures var s0 := Initial({1, 2});
            var s1 := LockStep(s0, 2);
            var s2 := WaitStep(s1, 2);
            var s3 := LockStep(s2, 1);
            var s4 := UnlockStep(s3, 1);
            && Inv(s4) && !Holds(s4, 1) && s4.word.owner == 1
            && s4.conds == [2] && s4.pc[2].Waiting? && !NoLostWakeup(SignalStep(s4))
  {
    var s0 := Initial({1, 2});
    var s1 := LockStep(s0, 2);
    var s2 := WaitStep(s1, 2);
    var s3 := LockStep(s2, 1);
    var s4 := UnlockStep(s3, 1);
    var s5 := SignalStep(s4);
    assert s5.pc.Keys == {1, 2} && s5.pc[1] == Outside && s5.pc[2].Moved?;
    StaleStates(s0, s1, s2, s3, s4);
  }

  /**
   * The assertion behind the loop of _waitCond, for a thread that finds the lock free: if
   * threads are queued, the restored word has a positive semaphore.
   */
  ghost predicate RestoreAsserted(s: State, t: Tid)
    requires t in s.pc && s.pc[t].Returning?
  {
    s.word.sem == 0 && s.waiters != [] ==> ResumeStep(s, t).word.sem > 0
  }

  /** It holds if and only if the thread was inside when it called wait, or nobody is queued. */
  lemma RestoreExact(s: State, t: Tid)
    requires Safe(s) && t in s.pc && s.pc[t].Returning? && s.word.sem == 0
    ensures RestoreAsserted(s, t) <==> s.pc[t].saved.sem > 0 || s.waiters == []
    ensures RestoreAsserted(s, t) <==> Holds(ResumeStep(s, t), t) || s.waiters == []
  {
    ResumeKeeps(s, t);
    assert DepthOk(s, t);
  }

  /** On every run in which only threads inside wait and signal, it never fails. */
  lemma RunAsserted(threads: set<Tid>, states: seq<State>, steps: seq<Step>, i: nat, t: Tid)
    requires (forall t :: t in threads ==> 0 < t < OWNERS) && IsRun(states, steps) && states[0] == Initial(threads)
    requires i < |states| && forall k :: 0 <= k < i ==> Proper(states[k], steps[k])
    requires t in states[i].pc && states[i].pc[t].Returning?
    ensures RestoreAsserted(states[i], t)
  {
    RunKeeps(threads, states, steps, i);
    if states[i].word.sem == 0 { RestoreExact(states[i], t); }
  }

  /**
   * A thread that calls wait without being inside, and gets past the check, saves semaphore 0.
   * When it finds the lock free again while threads are queued, the assertion fails.  If none
   * is queued it returns, but it is not inside, and nobody is.
   */
  lemma StaleWait(states: seq<State>, steps: seq<Step>, t: Tid, i: nat, j: nat)
    requires IsRun(states, steps) && 0 < i <= j < |steps| && steps[i - 1] == Wait(t) && !Holds(states[i - 1], t)
    requires forall k :: i <= k <= j ==> t in states[k].pc && InWait(states[k].pc[t])
    requires t in states[j + 1].pc && states[j + 1].pc[t].Outside?
    ensures states[i].pc[t].saved.sem == 0
    ensures states[j].pc[t].Returning? && (RestoreAsserted(states[j], t) <==> states[j].waiters == [])
    ensures !Holds(states[j + 1], t) && states[j + 1].word.sem == 0 && states[j + 1].word.owner == t
  {
    assert Next(states[i - 1], steps[i - 1], states[i]);
    CheckedDepth(states[i - 1], t);
    WaitReturnsDepth(states, steps, t, i, j);
    assert Next(states[j], steps[j], states[j + 1]);
    WaitStable(states[j], steps[j], states[j + 1], t);
    assert DepthOk(states[j], t);
    RestoreExact(states[j], t);
  }

  /**
   * Thread 1 locks, unlocks and then waits; thread 2 locks, signals and unlocks; thread 1
   * returns from its wait.
   */
  lemma StaleWaitRun()
    ensures var s0 := Initial({1, 2});
            var s1 := LockStep(s0, 1);
            var s2 := UnlockStep(s1, 1);
            var s3 := WaitStep(s2, 1);
            var s4 := LockStep(s3, 2);
            var s5 := SignalStep(s4);
            var s6 := UnlockStep(s5, 2);
            var s7 := ResumeStep(s6, 1);
            && PassesCheck(s2, 1) && !Holds(s2, 1) && s3.pc[1] == Waiting(Word(0, false, 1)) && s5.pc[1].Moved?
            && s6.waiters == [] && s7.pc[1] == Outside && !Holds(s7, 1) && s7.word == Word(0, false, 1)
  {
  }

  /** The same with thread 3 queued for the lock while thread 2 is inside: the assertion fails. */
  lemma StaleWaitFails()
    ensures var s0 := Initial({1, 2, 3});
            var s1 := LockStep(s0, 1);
            var s2 := UnlockStep(s1, 1);
            var s3 := WaitStep(s2, 1);
            var s4 := LockStep(s3, 2);
            var s5 := LockStep(s4, 3);
            var s6 := SignalStep(s5);
            var s7 := UnlockStep(s6, 2);
            && PassesCheck(s2, 1) && !Holds(s2, 1) && s5.pc[3].Blocked?
            && s7.pc[1].Returning? && s7.word.sem == 0 && s7.waiters == [3] && !RestoreAsserted(s7, 1)
  {
    var s0 := Initial({1, 2, 3});
    var s4 := LockStep(WaitStep(UnlockStep(LockStep(s0, 1), 1), 1), 2);
    var s5 := LockStep(s4, 3);
    assert s5.waiters == [3] && s5.conds == [1] && s5.word == Word(1, true, 2);
    var s6 := SignalStep(s5);
    assert s6.waiters == [1, 3] && s6.waiters[1..] == [3];
  }

  lemma StaleStates(s0: State, s1: State, s2: State, s3: State, s4: State)
    requires s0 == Initial({1, 2}) && s1 == LockStep(s0, 2) && s2.pc.Keys == {1, 2} == s2.depth.Keys && s1.waiters == []
    requires s2 == WaitStep(s1, 2) && s3 == LockStep(s2, 1) && s3.waiters == [] && 1 in s3.depth
    requires s4 == UnlockStep(s3, 1)
    ensures Inv(s4)
  {
    InitialInv({1, 2});
    hide Inv, Safe;
    LockKeeps(s0, 2);
    WaitKeeps(s1, 2);
    LockKeeps(s2, 1);
    UnlockKeeps(s3, 1);
  }

  // ---------------------------------------------------------------------------
  // The code
  // ---------------------------------------------------------------------------

  /** lock_info |= HAS_WAITERS_MASK */
  function SetHasWaiters(i: int): int { if HasWaiters(i) then i else i + HAS_WAITERS }

  lemma SetHasWaitersOk(w: Word)
    requires WordOk(w)
    ensures SetHasWaiters(Pack(w)) == Pack(w.(hasWaiters := true))
  {
    Unpack(w);
  }

  class JLock {
    var lockInfo: int
    var waiters: seq<Tid>            // waiter_queue
    var conds: seq<Tid>              // cond_var_queue
    ghost var word: Word
    ghost var pc: map<Tid, Pc>
    ghost var depth: map<Tid, int>

    ghost function Value(): State reads this { State(word, waiters, conds, pc, depth) }

    ghost predicate Valid() reads this { lockInfo == Pack(word) && Safe(Value()) }

    constructor (ghost threads: set<Tid>)
      requires forall t :: t in threads ==> 0 < t < OWNERS
      ensures Valid() && Value() == Initial(threads)
    {
      InitialInv(threads);
      lockInfo, waiters, conds, word := 0, [], [], Word(0, false, 0);
      pc, depth := Initial(threads).pc, Initial(threads).depth;
    }

    /** The body of the loop of _lockMutex, with wait_in_queue; returns whether the lock was taken. */
    method LockMutex(t: Tid) returns (taken: bool)
      requires Valid() && CanLock(Value(), t)
      modifies this
      ensures Valid() && t in old(depth) && Value() == LockStep(old(Value()), t) && (taken <==> Holds(Value(), t))
      ensures t in depth && depth[t] == old(depth)[t] + (if taken then 1 else 0) && (taken ==> word.sem == depth[t])
      ensures taken <==> old(word).sem == 0 || Holds(old(Value()), t)
    {
      hide Safe, QueuesOk, Sem, Owner, HasWaiters, SetHasWaiters, Pack;
      LockKeeps(Value(), t);
      InThread(Value(), t);
      Unpack(word);
      SetHasWaitersOk(word);
      PackTaken(word, t);
      if Sem(lockInfo) == 0 || Owner(lockInfo) == t {
        taken := true;
        lockInfo := lockInfo - Owner(lockInfo) + t;
        lockInfo := lockInfo + SEMAPHORE_UNIT;
        word := word.(sem := word.sem + 1, owner := t);
        pc, depth := pc[t := Outside], depth[t := depth[t] + 1];
      } else {
        taken := false;
        lockInfo := SetHasWaiters(lockInfo);
        word := word.(hasWaiters := true);
        waiters, pc := [t] + waiters, pc[t := Blocked];
      }
    }

    /** _unlockMutex, with wakeup_waiter; the caller is inside. */
    method UnlockMutex(t: Tid)
      requires Valid() && Holds(Value(), t)
      modifies this
      ensures Valid() && (old(waiters) != [] ==> old(waiters)[0] in old(pc)) && Value() == UnlockStep(old(Value()), t)
    {
      hide Safe, QueuesOk, Pack, HasWaiters, Sem, Owner;
      UnlockKeeps(Value(), t);
      InThread(Value(), t);
      UnlockWord(Value(), t);
      lockInfo := lockInfo - SEMAPHORE_UNIT;
      word, depth := word.(sem := word.sem - 1), depth[t := depth[t] - 1];
      if lockInfo / HAS_WAITERS == 1 {
        WakeupWaiter();
      }
    }

    /** wakeup_waiter */
    method WakeupWaiter()
      requires lockInfo == Pack(word) && waiters != [] && waiters[0] in pc
      modifies `lockInfo, `waiters, `word, `pc
      ensures lockInfo == Pack(word) && Value() == WakeWaiter(old(Value()))
    {
      var thread := waiters[0];
      waiters := waiters[1..];
      if waiters == [] {
        lockInfo := 0;
        word := Word(0, false, 0);
      }
      pc := pc[thread := Woken(pc[thread])];
    }

    /** _waitCond up to the suspension on the condition queue; throws if the owner field is not the caller. */
    method WaitCond(t: Tid) returns (illegal: bool, saved: int)
      requires Valid() && t in pc && pc[t].Outside?
      modifies this
      ensures Valid() && (illegal <==> old(word).owner != t) && (illegal ==> Value() == old(Value()))
      ensures !illegal ==> (old(waiters) != [] ==> old(waiters)[0] in old(pc)) &&
                             Value() == WaitStep(old(Value()), t) && saved == Pack(old(word))
    {
      hide Safe, QueuesOk, Pack, HasWaiters, Sem, Owner;
      InThread(Value(), t);
      Unpack(word);
      saved := lockInfo;
      illegal := Owner(lockInfo) != t;
      if illegal { return; }
      WaitKeeps(Value(), t);
      WaitWord(Value());
      ghost var record := word;
      lockInfo := if HasWaiters(lockInfo) then HAS_WAITERS else 0;
      word := Word(0, word.hasWaiters, 0);
      if waiters != [] {
        assert lockInfo == HAS_WAITERS;
        WakeupWaiter();
        lockInfo := if waiters == [] then 0 else HAS_WAITERS;
      }
      conds, pc := [t] + conds, pc[t := Waiting(record)];
    }

    /**
     * The body of the loop of _waitCond and its end; returns whether the caller is through, and
     * whether the assertion on the restored semaphore holds.
     */
    method WaitAgain(t: Tid, saved: int) returns (done: bool, asserted: bool)
      requires Valid() && t in pc && pc[t].Returning? && saved == Pack(pc[t].saved)
      modifies this
      ensures Valid() && Value() == ResumeStep(old(Value()), t)
      ensures done ==> pc[t].Outside? && word.sem == old(pc[t].saved.sem) && (Holds(Value(), t) <==> word.sem > 0)
      ensures !done ==> pc[t].Moved?
      ensures asserted <==> old(RestoreAsserted(Value(), t))
      ensures done ==> (asserted <==> Holds(Value(), t) || waiters == [])
    {
      hide Safe, QueuesOk, Pack, HasWaiters, Sem, Owner, SetHasWaiters;
      InThread(Value(), t);
      Unpack(word);
      SetHasWaitersOk(word);
      ResumeKeeps(Value(), t);
      SavedWord(Value(), t);
      ghost var record := pc[t].saved;
      asserted := true;
      if Sem(lockInfo) > 0 {
        lockInfo, done := SetHasWaiters(lockInfo), false;
        word := word.(hasWaiters := true);
        waiters, pc := [t] + waiters, pc[t := Moved(record)];
      } else {
        lockInfo, done := saved, true;
        if waiters != [] { asserted := Sem(lockInfo) > 0; }
        lockInfo := if waiters != [] then SetHasWaiters(lockInfo) else ClearHasWaiters(lockInfo);
        word := record.(hasWaiters := waiters != []);
        pc := pc[t := Outside];
      }
    }

    /** _signalCond */
    method SignalCond(t: Tid) returns (illegal: bool)
      requires Valid() && t in pc && pc[t].Outside?
      modifies this
      ensures Valid() && (illegal <==> old(word).owner != t) && (illegal ==> Value() == old(Value()))
      ensures !illegal ==> (old(conds) != [] ==> old(conds)[0] in old(pc) && old(pc)[old(conds)[0]].Waiting?) &&
                             Value() == SignalStep(old(Value()))
    {
      hide Safe, QueuesOk, Pack, HasWaiters, Sem, Owner, SetHasWaiters;
      InThread(Value(), t);
      Unpack(word);
      SetHasWaitersOk(word);
      illegal := Owner(lockInfo) != t;
      if illegal { return; }
      SignalKeeps(Value());
      if conds != [] {
        var thread := conds[0];
        conds := conds[1..];
        waiters := [thread] + waiters;
        lockInfo := SetHasWaiters(lockInfo);
        word := word.(hasWaiters := true);
        pc := pc[thread := Moved(pc[thread].saved)];
      }
    }

    /** _broadcastCond */
    method BroadcastCond(t: Tid) returns (illegal: bool)
      requires Valid() && t in pc && pc[t].Outside?
      modifies this
      ensures Valid() && (illegal <==> old(word).owner != t)
      ensures Value() == if illegal then old(Value()) else BroadcastStep(old(Value()))
    {
      hide Safe, QueuesOk, Pack, HasWaiters, Sem, Owner, SetHasWaiters;
      InThread(Value(), t);
      Unpack(word);
      SetHasWaitersOk(word);
      illegal := Owner(lockInfo) != t;
      if illegal { return; }
      BroadcastKeeps(Value());
      if conds != [] {
        pc := BroadcastStep(Value()).pc;
        waiters := conds + waiters;
        conds := [];
        lockInfo := SetHasWaiters(lockInfo);
        word := word.(hasWaiters := true);
      }
    }
  }

  lemma InThread(s: State, t: Tid)
    requires Safe(s) && t in s.pc
    ensures WordOk(s.word) && t in s.depth && 0 < t < OWNERS
  {
    assert DepthOk(s, t);
  }

  lemma PackTaken(w: Word, t: Tid)
    requires WordOk(w)
    ensures Pack(w) - Owner(Pack(w)) + t + SEMAPHORE_UNIT == Pack(w.(sem := w.sem + 1, owner := t))
  {
    Unpack(w);
  }

  /** lock_info &= ~HAS_WAITERS_MASK */
  function ClearHasWaiters(i: int): int { if HasWaiters(i) then i - HAS_WAITERS else i }

  lemma UnlockWord(s: State, t: Tid)
    requires Safe(s) && Holds(s, t)
    ensures var w := s.word.(sem := s.word.sem - 1);
            && Pack(s.word) - SEMAPHORE_UNIT == Pack(w) && (Pack(w) / HAS_WAITERS == 1 <==> w.sem == 0 && w.hasWaiters)
            && (w.hasWaiters <==> s.waiters != [])
  {
    assert DepthOk(s, t);
    Unpack(s.word.(sem := s.word.sem - 1));
  }

  lemma WaitWord(s: State)
    requires Safe(s)
    ensures Pack(Word(0, s.word.hasWaiters, 0)) == if HasWaiters(Pack(s.word)) then HAS_WAITERS else 0
    ensures Pack(Word(0, false, 0)) == 0 && Pack(Word(0, true, 0)) == HAS_WAITERS
    ensures s.word.hasWaiters <==> s.waiters != []
  {
    Unpack(s.word);
  }

  lemma SavedWord(s: State, t: Tid)
    requires Safe(s) && t in s.pc && s.pc[t].Returning?
    ensures var w := s.pc[t].saved;
            && Sem(Pack(w)) == w.sem
            && SetHasWaiters(Pack(w)) == Pack(w.(hasWaiters := true))
            && ClearHasWaiters(Pack(w)) == Pack(w.(hasWaiters := false))
  {
    assert DepthOk(s, t);
    Unpack(s.pc[t].saved);
  }
}
