/**
 The order in which fiber_shared_mutex serves its queues, under every interleaving:
 writers one by one from the front, readers all at once and then in order.
 */
module SharedOrder {
  import opened Common
  import opened SharedSteps
  import Fifo

  /** The writer a fiber has just taken off the queue. */
  function TookWriter(p: Pc): Option<nat> {
    if p.SStore? || p.UStore? then Some(p.next) else None
  }

  /** A step leaves the writer queue alone, adds its own fiber at the end, or takes the first off to hand it the lock. */
  ghost predicate WriterTurn(s: State, t: State, a: Action) {
    || t.writerQueue == s.writerQueue
    || (t.writerQueue == s.writerQueue + [a.f] && t.At(a.f) == WOut(false))
    || (s.writerQueue != [] && t.writerQueue == s.writerQueue[1..] && TookWriter(t.At(a.f)) == Some(s.writerQueue[0]))
  }

  /** A step leaves the reader queue alone, adds its own fiber at the end, or takes all of it to admit in that order. */
  ghost predicate ReaderTurn(s: State, t: State, a: Action) {
    || t.readerQueue == s.readerQueue
    || (t.readerQueue == s.readerQueue + [a.f] && t.At(a.f) == ROut(false))
    || (t.readerQueue == [] && t.At(a.f) == UBatch(s.readerQueue))
  }

  lemma StepTurns(s: State, t: State, a: Action)
    requires Next(s, a) == Some(t)
    ensures WriterTurn(s, t, a) && ReaderTurn(s, t, a)
  {
    var f := a.f;
    hide ReaderStep, LeaverStep, WriterStep, HandStep, WriterTurn, ReaderTurn;
    if a.Go? {
      if ReaderStep(s, f).Some? { ReaderStepTurns(s, t, a); }
      else if LeaverStep(s, f).Some? { LeaverStepTurns(s, t, a); }
      else if WriterStep(s, f).Some? { WriterStepTurns(s, t, a); }
      else { HandStepTurns(s, t, a); }
    } else {
      SameQueues(s, t, a);
    }
  }

  lemma SameQueues(s: State, t: State, a: Action)
    requires t.writerQueue == s.writerQueue && t.readerQueue == s.readerQueue
    ensures WriterTurn(s, t, a) && ReaderTurn(s, t, a)
  {
  }

  lemma ReaderStepTurns(s: State, t: State, a: Action)
    requires ReaderStep(s, a.f) == Some(t)
    ensures WriterTurn(s, t, a) && ReaderTurn(s, t, a)
  {
  }

  lemma LeaverStepTurns(s: State, t: State, a: Action)
    requires LeaverStep(s, a.f) == Some(t)
    ensures WriterTurn(s, t, a) && ReaderTurn(s, t, a)
  {
  }

  lemma WriterStepTurns(s: State, t: State, a: Action)
    requires WriterStep(s, a.f) == Some(t)
    ensures WriterTurn(s, t, a) && ReaderTurn(s, t, a)
  {
  }

  lemma HandStepTurns(s: State, t: State, a: Action)
    requires HandStep(s, a.f) == Some(t)
    ensures WriterTurn(s, t, a) && ReaderTurn(s, t, a)
  {
  }

  ghost function WriterQueues(states: seq<State>): seq<seq<nat>> {
    seq(|states|, i requires 0 <= i < |states| => states[i].writerQueue)
  }

  lemma WritersShift(states: seq<State>, actions: seq<Action>)
    requires IsRun(states, actions)
    ensures Fifo.Shifts(WriterQueues(states))
  {
    hide Next, Base;
    var queues := WriterQueues(states);
    forall i | 0 <= i < |queues| - 1 ensures Fifo.Shift(queues[i], queues[i + 1]) {
      RunKeepsBase(states, actions, i);
      NoWriterTwice(states[i]);
      StepTurns(states[i], states[i + 1], actions[i]);
    }
  }

  lemma NoWriterTwice(s: State)
    requires Base(s)
    ensures NoDup(s.writerQueue) && NoDup(s.readerQueue)
  {
  }

  /** The step takes writer f off the queue to hand it the lock. */
  ghost predicate Takes(s: State, t: State, a: Action, f: nat) {
    s.writerQueue != [] && s.writerQueue[0] == f && t.writerQueue == s.writerQueue[1..] && TookWriter(t.At(a.f)) == Some(f)
  }

  ghost predicate TakenBetween(states: seq<State>, actions: seq<Action>, f: nat, m: nat, n: nat)
    requires |states| == |actions| + 1
  {
    exists k :: m <= k < n && k < |actions| && Takes(states[k], states[k + 1], actions[k], f)
  }

  /** In every run, of two queued writers the one queued first is handed the lock first. */
  lemma WritersInOrder(states: seq<State>, actions: seq<Action>, m: nat, n: nat, i: nat, j: nat)
    requires IsRun(states, actions) && m <= n < |actions| && i < j < |states[m].writerQueue|
    requires Takes(states[n], states[n + 1], actions[n], states[m].writerQueue[j])
    ensures TakenBetween(states, actions, states[m].writerQueue[i], m, n)
  {
    hide Next;
    var queues := WriterQueues(states);
    WritersShift(states, actions);
    Fifo.TakenInOrder(queues, m, n, i, j);
    var k :| m <= k < n && Fifo.Taken(queues[k], queues[k + 1], states[m].writerQueue[i]);
    StepTurns(states[k], states[k + 1], actions[k]);
    assert Takes(states[k], states[k + 1], actions[k], states[m].writerQueue[i]);
  }

  /** The next step of a fiber that took a writer makes that writer the holder; the next of one that took readers admits the first. */
  lemma TakenIsServed(s: State, t: State, f: nat)
    requires Base(s) && Next(s, Go(f)) == Some(t)
    ensures TookWriter(s.At(f)).Some? ==> t.writer && t.At(TookWriter(s.At(f)).value).WGranted?
    ensures s.At(f).UBatch? && s.At(f).left != [] ==>
              t.readers == s.readers + 1 && t.At(s.At(f).left[0]).Shared? && t.At(f) == UBatch(s.At(f).left[1..])
  {
    hide Base;
    if Other(s.At(f)).Some? { NotItself(s, f); }
  }

  lemma NotItself(s: State, f: nat)
    requires Base(s) && Other(s.At(f)).Some?
    ensures Other(s.At(f)).value != f
  {
    OtherIsParked(s, f);
  }

  // ------------------------------------------------------------ readers defer to writers

  /** A reader about to come in from the slow path has the queue lock, and no writer is inside or queued. */
  ghost predicate Defers(s: State) {
    forall f: nat :: s.At(f).RInAdd? ==> !s.writer && s.writerQueue == []
  }

  lemma ReaderLooks(s: State, t: State, f: nat)
    requires ReaderStep(s, f) == Some(t)
    ensures t.At(f).RInAdd? ==> s.At(f).RIn? && s.writerQueue == [] && t.writerQueue == []
    ensures t.At(f) == RAdd(false) ==> s.At(f).RLookQueue? && s.writerQueue == []
  {
  }

  lemma NoReaderLook(s: State, t: State, f: nat)
    requires LeaverStep(s, f) == Some(t) || WriterStep(s, f) == Some(t) || HandStep(s, f) == Some(t)
    ensures !t.At(f).RInAdd?
    ensures t.At(f) != RAdd(false)
  {
  }

  lemma OwnLook(s: State, t: State, a: Action)
    requires Next(s, a) == Some(t)
    ensures t.At(a.f).RInAdd? ==> s.writerQueue == [] && t.writerQueue == []
    ensures t.At(a.f) == RAdd(false) ==> a.Go? && s.At(a.f).RLookQueue? && s.writerQueue == []
  {
    hide ReaderStep, LeaverStep, WriterStep, HandStep;
    if a.Go? {
      if ReaderStep(s, a.f).Some? { ReaderLooks(s, t, a.f); } else { NoReaderLook(s, t, a.f); }
    }
  }

  /** The writer queue changes only in the hands of the holder of the queue lock. */
  lemma QueueHasLock(s: State, t: State, a: Action)
    requires Next(s, a) == Some(t) && t.writerQueue != s.writerQueue
    ensures HasLock(s.At(a.f)) && !s.At(a.f).RInAdd?
  {
    hide HandStep, ReaderStep;
    if a.Go? {
      if ReaderStep(s, a.f).Some? { SameWriters(s, t, a.f); }
      else if HandStep(s, a.f).Some? && LeaverStep(s, a.f).None? && WriterStep(s, a.f).None? { SameWriters(s, t, a.f); }
    }
  }

  lemma SameWriters(s: State, t: State, f: nat)
    requires ReaderStep(s, f) == Some(t) || HandStep(s, f) == Some(t)
    ensures t.writerQueue == s.writerQueue
  {
  }

  lemma StepDefers(s: State, t: State, a: Action)
    requires Base(s) && Base(t) && Defers(s) && Next(s, a) == Some(t)
    ensures Defers(t)
  {
    hide Next;
    forall f: nat | t.At(f).RInAdd? ensures !t.writer && t.writerQueue == [] {
      FlagAt(t, f);
      if f == a.f {
        OwnLook(s, t, a);
      } else {
        OthersStay(s, t, a, f);
        LockAt(s, f);
        LockAt(s, a.f);
        if t.writerQueue != s.writerQueue { QueueHasLock(s, t, a); }
      }
    }
  }

  /** In every run a reader that comes in from the slow path passes no writer, inside or queued. */
  lemma {:induction false} RunDefers(states: seq<State>, actions: seq<Action>, i: nat)
    requires IsRun(states, actions) && i < |states|
    ensures Defers(states[i])
  {
    hide Base, Next;
    if i > 0 {
      RunDefers(states, actions, i - 1);
      RunKeepsBase(states, actions, i - 1);
      RunKeepsBase(states, actions, i);
      StepDefers(states[i - 1], states[i], actions[i - 1]);
    }
  }

  // ------------------------------------------------------------ try_lock and try_lock_shared

  /** Where a fiber may stand from a try_lock_shared to its next call. */
  predicate TryingShared(p: Pc) {
    p in {RLook(true), RAdd(true), RRecheck(true), RUndo(true), Shared, Idle}
  }

  /** Where a fiber may stand from a try_lock to its next call. */
  predicate Trying(p: Pc) {
    p in {WWant(true), WIn(true), WStore(true), WFail, WOut(true), Exclusive, Idle}
  }

  lemma TrySharedStep(s: State, t: State, f: nat)
    requires Instruction(s, f) == Some(t) && TryingShared(s.At(f))
    ensures TryingShared(t.At(f))
    ensures t.At(f) in {RUndo(true), Idle} ==> s.writer || s.At(f) == RUndo(true)
  {
  }

  lemma TryStep(s: State, t: State, f: nat)
    requires Instruction(s, f) == Some(t) && Trying(s.At(f))
    ensures Trying(t.At(f))
    ensures t.At(f) in {WFail, Idle} ==> s.writer || s.readers != 0 || s.At(f) == WFail
  {
  }

  /** Between states k and n fiber f makes no call. */
  ghost predicate NoCall(actions: seq<Action>, f: nat, k: nat, n: nat) {
    forall i :: k <= i < n && i < |actions| && actions[i].f == f ==> actions[i].Go?
  }

  ghost predicate WriterSeen(states: seq<State>, k: nat, n: nat) {
    exists m :: k < m < n && m < |states| && states[m].writer
  }

  ghost predicate HolderSeen(states: seq<State>, k: nat, n: nat) {
    exists m :: k < m < n && m < |states| && (states[m].writer || states[m].readers != 0)
  }

  /** A try_lock_shared never waits in a queue, and is refused only if a writer was seen. */
  lemma {:induction false} TrySharedReturns(states: seq<State>, actions: seq<Action>, k: nat, n: nat, f: nat)
    requires IsRun(states, actions) && k < n < |states| && actions[k] == CallTryLockShared(f) && NoCall(actions, f, k + 1, n)
    ensures TryingShared(states[n].At(f))
    ensures states[n].At(f) in {RUndo(true), Idle} ==> WriterSeen(states, k, n)
    decreases n
  {
    hide Base, Instruction;
    if n > k + 1 {
      var s, t, a := states[n - 1], states[n], actions[n - 1];
      TrySharedReturns(states, actions, k, n - 1, f);
      RunKeepsBase(states, actions, n - 1);
      if a.f == f {
        TrySharedStep(s, t, f);
      } else {
        OthersStay(s, t, a, f);
      }
      assert s.writer ==> WriterSeen(states, k, n);
      assert WriterSeen(states, k, n - 1) ==> WriterSeen(states, k, n);
    }
  }

  /** A try_lock never waits in a queue, and is refused only if a writer or a counted reader was seen. */
  lemma {:induction false} TryReturns(states: seq<State>, actions: seq<Action>, k: nat, n: nat, f: nat)
    requires IsRun(states, actions) && k < n < |states| && actions[k] == CallTryLock(f) && NoCall(actions, f, k + 1, n)
    ensures Trying(states[n].At(f))
    ensures states[n].At(f) in {WFail, Idle} ==> HolderSeen(states, k, n)
    decreases n
  {
    hide Base, Instruction;
    if n > k + 1 {
      var s, t, a := states[n - 1], states[n], actions[n - 1];
      TryReturns(states, actions, k, n - 1, f);
      RunKeepsBase(states, actions, n - 1);
      if a.f == f {
        TryStep(s, t, f);
      } else {
        OthersStay(s, t, a, f);
      }
      assert s.writer || s.readers != 0 ==> HolderSeen(states, k, n);
      assert HolderSeen(states, k, n - 1) ==> HolderSeen(states, k, n);
    }
  }
}
