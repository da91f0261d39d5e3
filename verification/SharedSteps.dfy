/**
 fiber_shared_mutex as an interleaving of atomic steps: every load, store and
 addition on the writer flag and the reader count, and every update of a queue
 under the queue spin lock, is a step of its own.  Words that only the holder of
 the spin lock touches are read and written in one step with what follows.
 */
module SharedSteps {
  import opened Common

  /** Where a fiber stands. */
  datatype Pc =
    | Idle                      // outside the mutex
    // lock_shared and try_lock_shared
    | RLook(once: bool)         // before the first look at the writer flag
    | RLookQueue                // before the look at the head of the writer queue, outside its lock
    | RAdd(once: bool)          // before adding itself to the readers
    | RRecheck(once: bool)      // before the second look at the flag
    | RUndo(once: bool)         // before taking itself off the readers again
    | RWant                     // spinning on the queue lock
    | RIn                       // has the queue lock
    | RInAdd                    // saw neither a writer nor a queue, before adding itself
    | ROut(granted: bool)       // before releasing the queue lock
    | RParked
    | Shared                    // holds the lock with other readers
    // unlock_shared
    | SSub                      // before taking itself off the readers
    | SWant                     // was the last reader, spinning on the queue lock
    | SIn                       // has the queue lock
    | SStore(next: nat)         // took the first writer off the queue, before setting the flag
    // lock and try_lock
    | WWant(once: bool)         // spinning on the queue lock
    | WIn(once: bool)           // has the queue lock, before its look at flag, count and queue
    | WStore(once: bool)        // saw the lock free, before setting the flag
    | WQueue                    // before appending itself to the writer queue
    | WOut(granted: bool)       // before releasing the queue lock
    | WFail                     // try_lock: before releasing the queue lock
    | WParked
    | WGranted                  // made the writer while parked, before it is woken
    | Exclusive                 // holds the lock alone
    // unlock
    | UWant                     // spinning on the queue lock
    | UClear                    // has the queue lock, before clearing the flag
    | UIn                       // before looking at the queues
    | UBatch(left: seq<nat>)    // has released the queue lock, before adding and waking the next reader taken
    | UStore(next: nat)         // took the first writer off the queue, before setting the flag
    // both unlocks
    | UOut(next: nat)           // before releasing the queue lock
    | UWake(next: nat)          // before waking the writer

  datatype State = State(
    pc: map<nat, Pc>,           // Idle when absent
    writer: bool,
    readers: int,
    writerQueue: seq<nat>,
    readerQueue: seq<nat>,
    queueLock: Option<nat>)
  {
    function At(f: nat): Pc { if f in pc then pc[f] else Idle }
    function Goto(f: nat, p: Pc): State { this.(pc := pc[f := p]) }
    function Take(f: nat, p: Pc): Option<State> {
      if queueLock.None? then Some(this.(queueLock := Some(f)).Goto(f, p)) else None
    }
    function Leave(f: nat, p: Pc): State { this.(queueLock := None).Goto(f, p) }
  }

  const Start := State(map[], false, 0, [], [], None)

  datatype Action =
    | CallLock(f: nat) | CallTryLock(f: nat) | CallUnlock(f: nat)
    | CallLockShared(f: nat) | CallTryLockShared(f: nat) | CallUnlockShared(f: nat)
    | Go(f: nat)

  /** try_lock_shared returns, lock_shared goes on with the queue lock. */
  function GiveUp(once: bool): Pc {
    if once then Idle else RWant
  }

  /** lock_shared and try_lock_shared. */
  function ReaderStep(s: State, f: nat): Option<State> {
    match s.At(f)
    case RLook(once) => Some(s.Goto(f, if s.writer then GiveUp(once) else if once then RAdd(true) else RLookQueue))
    case RLookQueue => Some(s.Goto(f, if s.writerQueue == [] then RAdd(false) else RWant))
    case RAdd(once) => Some(s.(readers := s.readers + 1).Goto(f, RRecheck(once)))
    case RRecheck(once) => Some(s.Goto(f, if s.writer then RUndo(once) else Shared))
    case RUndo(once) => Some(s.(readers := s.readers - 1).Goto(f, GiveUp(once)))
    case RWant => s.Take(f, RIn)
    case RIn =>
      Some(if !s.writer && s.writerQueue == [] then s.Goto(f, RInAdd)
           else s.(readerQueue := s.readerQueue + [f]).Goto(f, ROut(false)))
    case RInAdd => Some(s.(readers := s.readers + 1).Goto(f, ROut(true)))
    case ROut(granted) => Some(s.Leave(f, if granted then Shared else RParked))
    case _ => None
  }

  /** unlock_shared up to the hand-over. */
  function LeaverStep(s: State, f: nat): Option<State> {
    match s.At(f)
    case SSub => Some(s.(readers := s.readers - 1).Goto(f, if s.readers == 1 then SWant else Idle))
    case SWant => s.Take(f, SIn)
    case SIn =>
      Some(if s.readers == 0 && s.writerQueue != []
           then s.(writerQueue := s.writerQueue[1..]).Goto(f, SStore(s.writerQueue[0])) else s.Leave(f, Idle))
    case _ => None
  }

  /** lock, try_lock and unlock up to the hand-over. */
  function WriterStep(s: State, f: nat): Option<State> {
    match s.At(f)
    case WWant(once) => s.Take(f, WIn(once))
    case WIn(once) =>
      Some(s.Goto(f, if !s.writer && s.readers == 0 && (once || s.writerQueue == []) then WStore(once)
                     else if once then WFail else WQueue))
    case WStore(_) => Some(s.(writer := true).Goto(f, WOut(true)))
    case WQueue => Some(s.(writerQueue := s.writerQueue + [f]).Goto(f, WOut(false)))
    case WOut(granted) => Some(s.Leave(f, if granted then Exclusive else WParked))
    case WFail => Some(s.Leave(f, Idle))
    case UWant => s.Take(f, UClear)
    case UClear => Some(s.(writer := false).Goto(f, UIn))
    case UIn =>
      Some(if s.readerQueue != [] then s.(readerQueue := []).Leave(f, UBatch(s.readerQueue))
           else if s.writerQueue != [] then s.(writerQueue := s.writerQueue[1..]).Goto(f, UStore(s.writerQueue[0]))
           else s.Leave(f, Idle))
    case UOut(n) => Some(s.Leave(f, UWake(n)))
    case UBatch(left) => if left == [] then Some(s.Goto(f, Idle)) else None
    case _ => None
  }

  /** The steps that move another fiber too: admitting a reader, making a parked fiber the writer, waking it. */
  function HandStep(s: State, f: nat): Option<State> {
    match s.At(f)
    case UBatch(left) =>
      if left == [] then None else Some(s.(readers := s.readers + 1).Goto(left[0], Shared).Goto(f, UBatch(left[1..])))
    case SStore(n) => Some(s.(writer := true).Goto(n, WGranted).Goto(f, UOut(n)))
    case UStore(n) => Some(s.(writer := true).Goto(n, WGranted).Goto(f, UOut(n)))
    case UWake(n) => Some(s.Goto(n, Exclusive).Goto(f, Idle))
    case _ => None
  }

  /** The next atomic step of a fiber, if it has one and is not spinning. */
  function Instruction(s: State, f: nat): Option<State> {
    if ReaderStep(s, f).Some? then ReaderStep(s, f)
    else if LeaverStep(s, f).Some? then LeaverStep(s, f)
    else if WriterStep(s, f).Some? then WriterStep(s, f)
    else HandStep(s, f)
  }

  /** The state after an action, if the action is possible. */
  function Next(s: State, a: Action): Option<State> {
    match a
    case CallLock(f) => if s.At(f).Idle? then Some(s.Goto(f, WWant(false))) else None
    case CallTryLock(f) => if s.At(f).Idle? then Some(s.Goto(f, WWant(true))) else None
    case CallUnlock(f) => if s.At(f).Exclusive? then Some(s.Goto(f, UWant)) else None
    case CallLockShared(f) => if s.At(f).Idle? then Some(s.Goto(f, RLook(false))) else None
    case CallTryLockShared(f) => if s.At(f).Idle? then Some(s.Goto(f, RLook(true))) else None
    case CallUnlockShared(f) => if s.At(f).Shared? then Some(s.Goto(f, SSub)) else None
    case Go(f) => Instruction(s, f)
  }

  ghost predicate IsRun(states: seq<State>, actions: seq<Action>) {
    && |states| == |actions| + 1 && states[0] == Start
    && forall i :: 0 <= i < |actions| ==> Next(states[i], actions[i]) == Some(states[i + 1])
  }

  // --------------------------------------------------------- inside the mutex

  /** Inside as a writer: from the store that grants the lock to the one that clears the flag. */
  predicate Writes(p: Pc) {
    p == WOut(true) || p.WGranted? || p.Exclusive? || p.UWant? || p.UClear?
  }

  /** Inside as a reader: from the step that admits it to the subtraction that takes it off the readers. */
  predicate Reads(p: Pc) {
    p == ROut(true) || p.Shared? || p.SSub?
  }

  /** A writer is alone: no second writer and no reader. */
  ghost predicate Excludes(s: State) {
    && (forall f: nat, g: nat :: Writes(s.At(f)) && Writes(s.At(g)) ==> f == g)
    && (forall f: nat, g: nat :: !(Writes(s.At(f)) && Reads(s.At(g))))
  }

  ghost predicate AnyReader(s: State) { exists g: nat :: Reads(s.At(g)) }
  ghost predicate AnyWriter(s: State) { exists g: nat :: Writes(s.At(g)) }

  /** The four steps that admit a fiber on a look that may be out of date. */
  ghost predicate Clash(s: State, a: Action) {
    a.Go? &&
    match s.At(a.f)
    // lock, try_lock: a reader came in after the count was seen to be zero
    case WStore(_) => AnyReader(s)
    // unlock to a writer: a reader came in while the flag was clear
    case UStore(_) => AnyReader(s)
    // unlock_shared: somebody came in after the last reader left
    case SStore(_) => AnyReader(s) || AnyWriter(s)
    // unlock to readers: a writer came in before they were all counted
    case UBatch(left) => left != [] && AnyWriter(s)
    case _ => false
  }

  // ------------------------------------------------------------ the invariant

  predicate HasLock(p: Pc) {
    || p.RIn? || p.RInAdd? || p.ROut? || p.SIn? || p.SStore? || p.WIn? || p.WStore? || p.WQueue? || p.WOut? || p.WFail?
    || p.UClear? || p.UIn? || p.UStore? || p.UOut?
  }

  ghost predicate LockInv(s: State) {
    forall f: nat :: HasLock(s.At(f)) <==> s.queueLock == Some(f)
  }

  /** Seen or made clear under the queue lock, without which nobody sets the flag. */
  predicate Relies(p: Pc) {
    p.WStore? || p.UIn? || p.UStore? || p.RInAdd?
  }

  ghost predicate FlagInv(s: State) {
    forall f: nat :: Relies(s.At(f)) ==> !s.writer
  }

  /** Queued fibers are parked or about to be. */
  ghost predicate QueueInv(s: State) {
    && NoDup(s.writerQueue) && NoDup(s.readerQueue)
    && (forall f: nat :: f in s.writerQueue ==> s.At(f) == WOut(false) || s.At(f).WParked?)
    && (forall f: nat :: f in s.readerQueue ==> s.At(f) == ROut(false) || s.At(f).RParked?)
  }

  /** A writer taken off the queue is parked. */
  ghost predicate HandInv(s: State) {
    forall f: nat :: s.At(f).SStore? || s.At(f).UStore? ==> s.At(s.At(f).next).WParked? && s.At(f).next !in s.writerQueue
  }

  function Batch(p: Pc): seq<nat> {
    if p.UBatch? then p.left else []
  }

  /** Readers taken off the queue are parked, and each is for one unlocker to wake. */
  ghost predicate BatchInv(s: State) {
    && (forall f: nat :: NoDup(Batch(s.At(f))))
    && (forall f: nat, x: nat :: x in Batch(s.At(f)) ==> s.At(x).RParked? && x !in s.readerQueue)
    && (forall f: nat, g: nat, x: nat :: x in Batch(s.At(f)) && x in Batch(s.At(g)) ==> f == g)
  }

  function Owes(p: Pc): Option<nat> {
    if p.UOut? || p.UWake? then Some(p.next) else None
  }

  /** A writer that is owed a wake is parked as the writer. */
  ghost predicate WakeInv(s: State) {
    && (forall f: nat :: Owes(s.At(f)).Some? ==> s.At(Owes(s.At(f)).value).WGranted?)
    && (forall f: nat, g: nat :: Owes(s.At(f)).Some? && Owes(s.At(f)) == Owes(s.At(g)) ==> f == g)
  }

  ghost predicate Queues(s: State) {
    QueueInv(s) && HandInv(s) && BatchInv(s) && WakeInv(s)
  }

  ghost predicate Base(s: State) {
    LockInv(s) && FlagInv(s) && Queues(s)
  }

  // ----------------------------------------------------- every step keeps it

  /** In a queue, on the way from one, or bringing another from one. */
  predicate Queueing(p: Pc) {
    || p == WOut(false) || p == ROut(false) || p.WParked? || p.RParked? || p.WGranted?
    || p.SStore? || p.UStore? || p.UBatch? || p.UOut? || p.UWake?
  }

  /** Steps of fibers that have to do with no queue. */
  lemma QueuesFrame(s: State, t: State, f: nat)
    requires Queues(s) && !Queueing(s.At(f)) && !Queueing(t.At(f)) && forall g: nat :: g != f ==> t.At(g) == s.At(g)
    requires t.writerQueue == s.writerQueue && t.readerQueue == s.readerQueue
    ensures Queues(t)
  {
  }

  /** What a step of f may do to the queue lock and the flag. */
  predicate Disciplined(s: State, t: State, f: nat) {
    && (HasLock(t.At(f)) <==> t.queueLock == Some(f))
    && (if HasLock(s.At(f)) then t.queueLock == Some(f) || t.queueLock.None?
        else t.queueLock == s.queueLock || (s.queueLock.None? && t.queueLock == Some(f)))
    && (t.writer ==> s.writer || HasLock(s.At(f)))
    && (Relies(t.At(f)) ==> !t.writer)
  }

  lemma LockFrame(s: State, t: State, f: nat)
    requires LockInv(s) && FlagInv(s) && Disciplined(s, t, f) && forall g: nat :: g != f ==> t.At(g) == s.At(g)
    ensures LockInv(t) && FlagInv(t)
  {
    assert forall g: nat :: Relies(s.At(g)) ==> HasLock(s.At(g));
  }

  lemma Elsewhere(s: State, t: State, f: nat)
    requires f in t.pc && t.pc == s.pc[f := t.pc[f]]
    ensures forall g: nat :: g != f ==> t.At(g) == s.At(g)
  {
  }

  lemma ReaderMoves(s: State, t: State, f: nat)
    requires ReaderStep(s, f) == Some(t)
    ensures f in t.pc && t.pc == s.pc[f := t.pc[f]]
  {
  }

  lemma ReaderEffect(s: State, t: State, f: nat)
    requires ReaderStep(s, f) == Some(t) && (HasLock(s.At(f)) <==> s.queueLock == Some(f)) && (Relies(s.At(f)) ==> !s.writer)
    ensures f in t.pc && t.pc == s.pc[f := t.pc[f]] && Disciplined(s, t, f)
  {
    ReaderMoves(s, t, f);
    match s.At(f) {
      case RWant | RIn | RInAdd | ROut(_) =>
      case _ =>
    }
  }

  lemma LeaverEffect(s: State, t: State, f: nat)
    requires LeaverStep(s, f) == Some(t) && (HasLock(s.At(f)) <==> s.queueLock == Some(f)) && (Relies(s.At(f)) ==> !s.writer)
    ensures f in t.pc && t.pc == s.pc[f := t.pc[f]] && Disciplined(s, t, f)
  {
  }

  lemma WriterEffect(s: State, t: State, f: nat)
    requires WriterStep(s, f) == Some(t) && (HasLock(s.At(f)) <==> s.queueLock == Some(f)) && (Relies(s.At(f)) ==> !s.writer)
    ensures f in t.pc && t.pc == s.pc[f := t.pc[f]] && Disciplined(s, t, f)
  {
  }

  /** A parked fiber is moved by another. */
  lemma MovedOther(s: State, n: nat, p: Pc)
    requires LockInv(s) && FlagInv(s) && !HasLock(s.At(n)) && !HasLock(p)
    ensures LockInv(s.Goto(n, p)) && FlagInv(s.Goto(n, p))
  {
    Elsewhere(s, s.Goto(n, p), n);
    LockFrame(s, s.Goto(n, p), n);
  }

  lemma HandLockKept(s: State, t: State, f: nat)
    requires Base(s) && HandStep(s, f) == Some(t)
    ensures LockInv(t) && FlagInv(t)
  {
    hide Queues;
    OtherIsParked(s, f);
    var n := Other(s.At(f)).value;
    var u := s.Goto(n, t.At(n));
    MovedOther(s, n, t.At(n));
    Elsewhere(u, t, f);
    LockFrame(u, t, f);
  }

  lemma LockKept(s: State, t: State, f: nat)
    requires Base(s) && Instruction(s, f) == Some(t)
    ensures LockInv(t) && FlagInv(t)
  {
    hide ReaderStep, LeaverStep, WriterStep, HandStep, HasLock, Relies, Disciplined;
    if ReaderStep(s, f).Some? {
      ReaderEffect(s, t, f);
      Elsewhere(s, t, f);
      LockFrame(s, t, f);
    } else if LeaverStep(s, f).Some? {
      LeaverEffect(s, t, f);
      Elsewhere(s, t, f);
      LockFrame(s, t, f);
    } else if WriterStep(s, f).Some? {
      WriterEffect(s, t, f);
      Elsewhere(s, t, f);
      LockFrame(s, t, f);
    } else {
      HandLockKept(s, t, f);
    }
  }

  /** The other fiber that a step moves. */
  function Other(p: Pc): Option<nat> {
    if p.SStore? || p.UStore? || p.UWake? then Some(p.next)
    else if p.UBatch? && p.left != [] then Some(p.left[0])
    else None
  }

  /** The fiber that another's step moves is parked, and another. */
  lemma OtherIsParked(s: State, f: nat)
    requires Queues(s) && Other(s.At(f)).Some?
    ensures var n := Other(s.At(f)).value;
      && n != f
      && (s.At(f).UBatch? ==> s.At(n).RParked?)
      && (s.At(f).UWake? ==> s.At(n).WGranted?)
      && (s.At(f).SStore? || s.At(f).UStore? ==> s.At(n).WParked?)
  {
  }

  // queues

  lemma AppendReader(s: State, t: State, f: nat)
    requires Queues(s) && s.At(f).RIn? && t == s.(readerQueue := s.readerQueue + [f]).Goto(f, ROut(false))
    ensures Queues(t)
  {
    Elsewhere(s, t, f);
  }

  /** The parts about batches and wakes, for a step of a fiber that has to do with neither. */
  lemma OthersFrame(s: State, t: State, f: nat)
    requires BatchInv(s) && WakeInv(s) && t.readerQueue == s.readerQueue && forall g: nat :: g != f ==> t.At(g) == s.At(g)
    requires !s.At(f).UBatch? && !t.At(f).UBatch? && !s.At(f).RParked? && !s.At(f).WGranted?
    requires Owes(s.At(f)).None? && Owes(t.At(f)).None?
    ensures BatchInv(t) && WakeInv(t)
  {
  }

  lemma AppendWriter(s: State, t: State, f: nat)
    requires Queues(s) && s.At(f).WQueue? && t == s.(writerQueue := s.writerQueue + [f]).Goto(f, WOut(false))
    ensures Queues(t)
  {
    hide BatchInv, WakeInv;
    Elsewhere(s, t, f);
    OthersFrame(s, t, f);
  }

  lemma Park(s: State, t: State, f: nat)
    requires Queues(s) && (s.At(f) == ROut(false) || s.At(f) == WOut(false))
    requires t == s.Leave(f, if s.At(f).ROut? then RParked else WParked)
    ensures Queues(t)
  {
    hide BatchInv, WakeInv;
    Elsewhere(s, t, f);
    OthersFrame(s, t, f);
  }

  lemma PopWriter(s: State, t: State, f: nat)
    requires Queues(s) && LockInv(s) && (s.At(f).SIn? || s.At(f).UIn?) && s.writerQueue != []
    requires t == s.(writerQueue := s.writerQueue[1..]).Goto(f, if s.At(f).SIn? then SStore(s.writerQueue[0]) else UStore(s.writerQueue[0]))
    ensures Queues(t)
  {
    hide BatchInv, WakeInv;
    Elsewhere(s, t, f);
    OthersFrame(s, t, f);
    var n := s.writerQueue[0];
    assert s.writerQueue == [n] + s.writerQueue[1..];
    assert n in s.writerQueue;
    PopHands(s, t, f, n);
  }

  lemma PopHands(s: State, t: State, f: nat, n: nat)
    requires LockInv(s) && HasLock(s.At(f)) && !s.At(f).WOut? && (s.At(n) == WOut(false) || s.At(n).WParked?)
    requires n !in t.writerQueue && (t.At(f) == SStore(n) || t.At(f) == UStore(n)) && forall g: nat :: g != f ==> t.At(g) == s.At(g)
    ensures HandInv(t)
  {
    assert forall g: nat :: g != f ==> !HasLock(s.At(g));
  }

  lemma TakeBatch(s: State, t: State, f: nat)
    requires Queues(s) && LockInv(s) && s.At(f).UIn? && t == s.(readerQueue := []).Leave(f, UBatch(s.readerQueue))
    ensures Queues(t)
  {
    Elsewhere(s, t, f);
    assert QueueInv(t) && HandInv(t) && WakeInv(t);
    hide QueueInv, HandInv, WakeInv;
    AllParked(s, f);
    BatchTaken(s, t, f);
  }

  lemma AllParked(s: State, f: nat)
    requires QueueInv(s) && LockInv(s) && HasLock(s.At(f)) && !s.At(f).ROut?
    ensures NoDup(s.readerQueue) && forall x: nat :: x in s.readerQueue ==> s.At(x).RParked?
  {
  }

  lemma BatchTaken(s: State, t: State, f: nat)
    requires BatchInv(s) && !s.At(f).RParked? && forall g: nat :: g != f ==> t.At(g) == s.At(g)
    requires NoDup(s.readerQueue) && forall x: nat :: x in s.readerQueue ==> s.At(x).RParked?
    requires t.readerQueue == [] && t.At(f) == UBatch(s.readerQueue)
    ensures BatchInv(t)
  {
    assert forall g: nat :: g != f ==> Batch(t.At(g)) == Batch(s.At(g));
  }

  /** Only f and n have moved, and the queues are the same. */
  ghost predicate TwoMove(s: State, t: State, f: nat, n: nat) {
    && f != n && t.writerQueue == s.writerQueue && t.readerQueue == s.readerQueue
    && forall g: nat :: g != f && g != n ==> t.At(g) == s.At(g)
  }

  lemma HandMoves(s: State, t: State, f: nat)
    requires HandStep(s, f) == Some(t) && Other(s.At(f)) != Some(f)
    ensures Other(s.At(f)).Some? && TwoMove(s, t, f, Other(s.At(f)).value)
    ensures s.At(f).UBatch? ==> t.At(f) == UBatch(s.At(f).left[1..]) && t.At(s.At(f).left[0]) == Shared
    ensures s.At(f).UWake? ==> t.At(f) == Idle && t.At(s.At(f).next) == Exclusive
    ensures s.At(f).SStore? || s.At(f).UStore? ==> t.At(f) == UOut(s.At(f).next) && t.At(s.At(f).next) == WGranted
  {
  }

  lemma QueueTwo(s: State, t: State, f: nat, n: nat)
    requires QueueInv(s) && TwoMove(s, t, f, n) && Handing(s.At(f)) && n !in s.writerQueue && n !in s.readerQueue
    ensures QueueInv(t)
  {
  }

  predicate Handing(p: Pc) {
    p.SStore? || p.UStore? || p.UBatch? || p.UWake?
  }

  lemma BatchAt(s: State, f: nat, g: nat, x: nat)
    requires BatchInv(s)
    ensures NoDup(Batch(s.At(f)))
    ensures x in Batch(s.At(f)) ==> s.At(x).RParked? && x !in s.readerQueue
    ensures x in Batch(s.At(f)) && x in Batch(s.At(g)) ==> f == g
  {
  }

  /** The unlocker's list loses its first. */
  lemma BatchNext(s: State, t: State, f: nat, n: nat)
    requires BatchInv(s) && TwoMove(s, t, f, n) && !s.At(f).RParked? && !s.At(n).UBatch? && !t.At(n).UBatch?
    requires s.At(f).UBatch? && s.At(f).left != [] && n == s.At(f).left[0] && t.At(f) == UBatch(s.At(f).left[1..])
    ensures BatchInv(t)
  {
    hide BatchInv;
    forall g: nat
      ensures NoDup(Batch(t.At(g)))
    {
      BatchAt(s, g, g, 0);
    }
    forall g: nat, x: nat | x in Batch(t.At(g))
      ensures t.At(x).RParked? && x !in t.readerQueue && x in Batch(s.At(g))
    {
      StillTaken(s, t, f, n, g, x);
    }
    forall g: nat, h: nat, x: nat | x in Batch(t.At(g)) && x in Batch(t.At(h))
      ensures g == h
    {
      StillTaken(s, t, f, n, g, x);
      StillTaken(s, t, f, n, h, x);
      BatchAt(s, g, h, x);
    }
    BatchFrom(t);
  }

  lemma BatchFrom(t: State)
    requires forall f: nat :: NoDup(Batch(t.At(f)))
    requires forall f: nat, x: nat :: x in Batch(t.At(f)) ==> t.At(x).RParked? && x !in t.readerQueue
    requires forall f: nat, g: nat, x: nat :: x in Batch(t.At(f)) && x in Batch(t.At(g)) ==> f == g
    ensures BatchInv(t)
  {
  }

  lemma StillTaken(s: State, t: State, f: nat, n: nat, g: nat, x: nat)
    requires BatchInv(s) && TwoMove(s, t, f, n) && !s.At(f).RParked? && !s.At(n).UBatch? && !t.At(n).UBatch?
    requires s.At(f).UBatch? && s.At(f).left != [] && n == s.At(f).left[0] && t.At(f) == UBatch(s.At(f).left[1..])
    requires x in Batch(t.At(g))
    ensures x in Batch(s.At(g)) && t.At(x).RParked? && x !in t.readerQueue
  {
    hide BatchInv;
    var b := s.At(f).left;
    assert b == [n] + b[1..] && g != n;
    BatchAt(s, g, f, x);
    BatchAt(s, f, g, n);
    if g == f {
      assert x in b[1..];
    } else {
      BatchAt(s, g, f, n);
    }
    assert x != n && x != f;
  }

  lemma BatchOther(s: State, t: State, f: nat, n: nat)
    requires BatchInv(s) && TwoMove(s, t, f, n) && !s.At(f).RParked? && !s.At(n).RParked?
    requires !s.At(f).UBatch? && !t.At(f).UBatch? && !s.At(n).UBatch? && !t.At(n).UBatch?
    ensures BatchInv(t)
  {
    assert forall g: nat :: Batch(t.At(g)) == Batch(s.At(g));
  }

  lemma WakeTwo(s: State, t: State, f: nat, n: nat)
    requires WakeInv(s) && TwoMove(s, t, f, n) && !s.At(f).WGranted? && Owes(s.At(n)).None? && Owes(t.At(n)).None?
    requires if Owes(t.At(f)).Some? then Owes(t.At(f)).value == n && t.At(n).WGranted? && !s.At(n).WGranted?
             else s.At(n).WGranted? ==> Owes(s.At(f)) == Some(n)
    ensures WakeInv(t)
  {
    forall g: nat | g != f && Owes(t.At(g)).Some?
      ensures Owes(t.At(g)) == Owes(s.At(g)) && Owes(t.At(g)) != Some(n)
    {
      assert g != n;
    }
  }

  lemma GrantWriter(s: State, t: State, f: nat)
    requires Queues(s) && LockInv(s) && (s.At(f).SStore? || s.At(f).UStore?) && HandStep(s, f) == Some(t)
    ensures Queues(t)
  {
    OtherIsParked(s, f);
    HandMoves(s, t, f);
    var n := s.At(f).next;
    hide HandStep, TwoMove, BatchInv, WakeInv;
    assert n !in s.writerQueue && n !in s.readerQueue;
    QueueTwo(s, t, f, n);
    BatchOther(s, t, f, n);
    WakeTwo(s, t, f, n);
    HandGrant(s, t, f, n);
  }

  lemma HandGrant(s: State, t: State, f: nat, n: nat)
    requires LockInv(s) && (s.At(f).SStore? || s.At(f).UStore?) && TwoMove(s, t, f, n) && t.At(f) == UOut(n) && t.At(n) == WGranted
    ensures HandInv(t)
  {
    assert forall g: nat :: g != f ==> !HasLock(s.At(g));
  }

  lemma HandTwo(s: State, t: State, f: nat, n: nat)
    requires HandInv(s) && TwoMove(s, t, f, n) && !s.At(f).WParked? && !s.At(n).WParked?
    requires !t.At(f).SStore? && !t.At(f).UStore? && !t.At(n).SStore? && !t.At(n).UStore?
    ensures HandInv(t)
  {
  }

  lemma AdmitReader(s: State, t: State, f: nat)
    requires Queues(s) && s.At(f).UBatch? && HandStep(s, f) == Some(t)
    ensures Queues(t)
  {
    OtherIsParked(s, f);
    HandMoves(s, t, f);
    var n := s.At(f).left[0];
    assert n in Batch(s.At(f));
    hide HandStep, TwoMove, WakeInv;
    assert n !in s.writerQueue && n !in s.readerQueue;
    hide BatchInv;
    QueueTwo(s, t, f, n);
    BatchNext(s, t, f, n);
    WakeTwo(s, t, f, n);
    HandTwo(s, t, f, n);
  }

  lemma WakeWriter(s: State, t: State, f: nat)
    requires Queues(s) && s.At(f).UWake? && HandStep(s, f) == Some(t)
    ensures Queues(t)
  {
    OtherIsParked(s, f);
    HandMoves(s, t, f);
    var n := s.At(f).next;
    hide HandStep, TwoMove, BatchInv, WakeInv;
    assert n !in s.writerQueue && n !in s.readerQueue;
    QueueTwo(s, t, f, n);
    BatchOther(s, t, f, n);
    WakeTwo(s, t, f, n);
    HandTwo(s, t, f, n);
  }

  lemma ReleaseHand(s: State, t: State, f: nat)
    requires Queues(s) && s.At(f).UOut? && t == s.Leave(f, UWake(s.At(f).next))
    ensures Queues(t)
  {
    Elsewhere(s, t, f);
    assert forall g: nat :: Owes(t.At(g)) == Owes(s.At(g));
    assert forall g: nat :: Batch(t.At(g)) == Batch(s.At(g));
  }

  lemma BatchDone(s: State, t: State, f: nat)
    requires Queues(s) && s.At(f) == UBatch([]) && t == s.Goto(f, Idle)
    ensures Queues(t)
  {
    Elsewhere(s, t, f);
  }

  lemma ReaderQueues(s: State, t: State, f: nat)
    requires Queues(s) && ReaderStep(s, f) == Some(t)
    ensures Queues(t)
  {
    hide Queues;
    if t.readerQueue != s.readerQueue {
      AppendReader(s, t, f);
    } else if s.At(f) == ROut(false) {
      Park(s, t, f);
    } else {
      Elsewhere(s, t, f);
      QueuesFrame(s, t, f);
    }
  }

  lemma LeaverQueues(s: State, t: State, f: nat)
    requires Queues(s) && LockInv(s) && LeaverStep(s, f) == Some(t)
    ensures Queues(t)
  {
    hide Queues, LockInv;
    if s.At(f).SIn? && s.readers == 0 && s.writerQueue != [] {
      PopWriter(s, t, f);
    } else {
      Elsewhere(s, t, f);
      QueuesFrame(s, t, f);
    }
  }

  lemma UnlockQueues(s: State, t: State, f: nat)
    requires Queues(s) && LockInv(s) && s.At(f).UIn? && WriterStep(s, f) == Some(t)
    ensures Queues(t)
  {
    hide Queues, LockInv;
    if s.readerQueue != [] {
      TakeBatch(s, t, f);
    } else if s.writerQueue != [] {
      PopWriter(s, t, f);
    } else {
      Elsewhere(s, t, f);
      QueuesFrame(s, t, f);
    }
  }

  lemma LockerQueues(s: State, t: State, f: nat)
    requires Queues(s) && !s.At(f).WQueue? && !s.At(f).UIn? && !s.At(f).UOut? && !s.At(f).UBatch? && WriterStep(s, f) == Some(t)
    ensures Queues(t)
  {
    hide Queues;
    if s.At(f) == WOut(false) {
      Park(s, t, f);
    } else {
      Elsewhere(s, t, f);
      QueuesFrame(s, t, f);
    }
  }

  lemma WriterQueues(s: State, t: State, f: nat)
    requires Queues(s) && LockInv(s) && WriterStep(s, f) == Some(t)
    ensures Queues(t)
  {
    hide Queues, LockInv;
    match s.At(f) {
      case WQueue => AppendWriter(s, t, f);
      case UOut(_) => ReleaseHand(s, t, f);
      case UBatch(_) => BatchDone(s, t, f);
      case UIn => UnlockQueues(s, t, f);
      case _ => LockerQueues(s, t, f);
    }
  }

  lemma InstructionKeeps(s: State, t: State, f: nat)
    requires Base(s) && Instruction(s, f) == Some(t)
    ensures Base(t)
  {
    hide ReaderStep, LeaverStep, WriterStep, Queues, LockInv, FlagInv;
    LockKept(s, t, f);
    if ReaderStep(s, f).Some? {
      ReaderQueues(s, t, f);
    } else if LeaverStep(s, f).Some? {
      LeaverQueues(s, t, f);
    } else if WriterStep(s, f).Some? {
      WriterQueues(s, t, f);
    } else {
      HandQueues(s, t, f);
    }
  }

  lemma HandQueues(s: State, t: State, f: nat)
    requires Queues(s) && LockInv(s) && HandStep(s, f) == Some(t)
    ensures Queues(t)
  {
    hide Queues, LockInv;
    match s.At(f) {
      case UBatch(_) => AdmitReader(s, t, f);
      case UWake(_) => WakeWriter(s, t, f);
      case _ => GrantWriter(s, t, f);
    }
  }

  lemma CallKeeps(s: State, t: State, a: Action)
    requires Base(s) && !a.Go? && Next(s, a) == Some(t)
    ensures Base(t)
  {
    hide Queues, LockInv, FlagInv, HasLock, Relies, Queueing, Disciplined, Next;
    LockAt(s, a.f);
    CallEffect(s, t, a);
    Elsewhere(s, t, a.f);
    LockFrame(s, t, a.f);
    QueuesFrame(s, t, a.f);
  }

  lemma CallEffect(s: State, t: State, a: Action)
    requires !a.Go? && Next(s, a) == Some(t) && (HasLock(s.At(a.f)) <==> s.queueLock == Some(a.f))
    ensures t == s.Goto(a.f, t.At(a.f)) && a.f in t.pc && Disciplined(s, t, a.f)
    ensures !Queueing(s.At(a.f)) && !Queueing(t.At(a.f))
    ensures Writes(t.At(a.f)) == Writes(s.At(a.f)) && Reads(t.At(a.f)) == Reads(s.At(a.f))
  {
  }

  lemma LockAt(s: State, f: nat)
    requires LockInv(s)
    ensures HasLock(s.At(f)) <==> s.queueLock == Some(f)
  {
  }

  lemma StepKeepsBase(s: State, t: State, a: Action)
    requires Base(s) && Next(s, a) == Some(t)
    ensures Base(t)
  {
    hide Base, Instruction;
    if a.Go? {
      InstructionKeeps(s, t, a.f);
    } else {
      CallKeeps(s, t, a);
    }
  }

  lemma {:induction false} RunKeepsBase(states: seq<State>, actions: seq<Action>, i: nat)
    requires IsRun(states, actions) && i < |states|
    ensures Base(states[i])
  {
    hide Next;
    if i > 0 {
      hide Base;
      RunKeepsBase(states, actions, i - 1);
      StepKeepsBase(states[i - 1], states[i], actions[i - 1]);
    }
  }

  // --------------------------------------------------------------- exclusion

  /** Exclusion, and a writer inside has its flag set. */
  ghost predicate Safe(s: State) {
    Excludes(s) && (AnyWriter(s) ==> s.writer)
  }

  /** Nobody comes in, and the flag is cleared only by the writer that leaves. */
  lemma NobodyIn(s: State, t: State)
    requires Safe(s) && forall g: nat :: (Writes(t.At(g)) ==> Writes(s.At(g))) && (Reads(t.At(g)) ==> Reads(s.At(g)))
    requires s.writer ==> t.writer || !AnyWriter(t)
    ensures Safe(t)
  {
    if AnyWriter(t) {
      var g: nat :| Writes(t.At(g));
      assert Writes(s.At(g));
    }
  }

  lemma ReaderIn(s: State, t: State, n: nat)
    requires Safe(s) && !AnyWriter(s) && !Writes(t.At(n))
    requires forall g: nat :: g != n ==> (Writes(t.At(g)) ==> Writes(s.At(g)))
    ensures Safe(t)
  {
    assert forall g: nat :: !Writes(s.At(g));
    assert forall g: nat :: !Writes(t.At(g));
  }

  lemma WriterIn(s: State, t: State, n: nat)
    requires !AnyWriter(s) && !AnyReader(s) && t.writer && !Reads(t.At(n))
    requires forall g: nat :: g != n ==> (Writes(t.At(g)) ==> Writes(s.At(g))) && (Reads(t.At(g)) ==> Reads(s.At(g)))
    ensures Safe(t)
  {
    assert forall g: nat :: !Writes(s.At(g)) && !Reads(s.At(g));
  }

  lemma ReaderClass(s: State, t: State, f: nat)
    requires ReaderStep(s, f) == Some(t)
    ensures t.writer == s.writer && !Writes(t.At(f))
    ensures Reads(t.At(f)) ==> Reads(s.At(f)) || s.At(f).RInAdd? || (s.At(f).RRecheck? && !s.writer)
  {
  }

  lemma ReaderSafe(s: State, t: State, f: nat)
    requires FlagInv(s) && Safe(s) && ReaderStep(s, f) == Some(t)
    ensures Safe(t)
  {
    hide Safe, FlagInv, ReaderStep;
    ReaderMoves(s, t, f);
    ReaderClass(s, t, f);
    Elsewhere(s, t, f);
    if s.At(f).RInAdd? || (s.At(f).RRecheck? && !s.writer) {
      assert !s.writer by { FlagAt(s, f); }
      NoWriter(s);
      ReaderIn(s, t, f);
    } else {
      NobodyIn(s, t);
    }
  }

  lemma FlagAt(s: State, f: nat)
    requires FlagInv(s)
    ensures Relies(s.At(f)) ==> !s.writer
  {
  }

  lemma NoWriter(s: State)
    requires Safe(s)
    ensures !s.writer ==> !AnyWriter(s)
  {
  }

  lemma LeaverSafe(s: State, t: State, f: nat)
    requires Safe(s) && LeaverStep(s, f) == Some(t)
    ensures Safe(t)
  {
    hide Safe;
    Elsewhere(s, t, f);
    NobodyIn(s, t);
  }

  lemma StoreSafe(s: State, t: State, f: nat)
    requires FlagInv(s) && Safe(s) && s.At(f).WStore? && t == s.(writer := true).Goto(f, WOut(true)) && !AnyReader(s)
    ensures Safe(t)
  {
    hide Safe, FlagInv;
    Elsewhere(s, t, f);
    FlagAt(s, f);
    NoWriter(s);
    WriterIn(s, t, f);
  }

  lemma ClearSafe(s: State, t: State, f: nat)
    requires Safe(s) && s.At(f).UClear? && t == s.(writer := false).Goto(f, UIn)
    ensures Safe(t)
  {
    hide Safe;
    Elsewhere(s, t, f);
    LastWriter(s, t, f);
    NobodyIn(s, t);
  }

  lemma WriterSafe(s: State, t: State, f: nat)
    requires FlagInv(s) && Safe(s) && WriterStep(s, f) == Some(t) && (s.At(f).WStore? ==> !AnyReader(s))
    ensures Safe(t)
  {
    hide Safe, FlagInv, AnyReader;
    if s.At(f).WStore? {
      StoreSafe(s, t, f);
    } else if s.At(f).UClear? {
      ClearSafe(s, t, f);
    } else {
      Elsewhere(s, t, f);
      NobodyIn(s, t);
    }
  }

  lemma LastWriter(s: State, t: State, f: nat)
    requires Safe(s) && Writes(s.At(f)) && !Writes(t.At(f)) && forall g: nat :: g != f ==> t.At(g) == s.At(g)
    ensures !AnyWriter(t)
  {
  }

  lemma HandSafe(s: State, t: State, f: nat)
    requires Base(s) && Safe(s) && HandStep(s, f) == Some(t) && !Clash(s, Go(f))
    ensures Safe(t)
  {
    hide Safe, Queues, LockInv, FlagInv, TwoMove;
    OtherIsParked(s, f);
    HandMoves(s, t, f);
    FlagAt(s, f);
    NoWriter(s);
    var n := Other(s.At(f)).value;
    assert t.writer == (s.writer || s.At(f).SStore? || s.At(f).UStore?);
    var p, q, r, w := s.At(f), t.At(f), s.At(n), t.At(n);
    hide HandStep;
    OtherClasses(s, t, f, n);
    match p {
      case UBatch(_) => ReaderIn(s, t, n);
      case UWake(_) => NobodyIn(s, t);
      case _ => WriterIn(s, t, n);
    }
  }

  lemma OtherClasses(s: State, t: State, f: nat, n: nat)
    requires TwoMove(s, t, f, n) && !Writes(t.At(f)) && !Reads(t.At(f))
    ensures forall g: nat :: g != n ==> (Writes(t.At(g)) ==> Writes(s.At(g))) && (Reads(t.At(g)) ==> Reads(s.At(g)))
  {
  }

  /** Without a clash a step keeps exclusion, whatever the other fibers are doing. */
  lemma StepKeepsSafe(s: State, t: State, a: Action)
    requires Base(s) && Safe(s) && Next(s, a) == Some(t) && !Clash(s, a)
    ensures Safe(t)
  {
    hide Safe, Queues, LockInv, ReaderStep, LeaverStep, WriterStep, HandStep, AnyReader, AnyWriter;
    if !a.Go? {
      LockAt(s, a.f);
      CallEffect(s, t, a);
      CallSafe(s, t, a.f);
    } else if ReaderStep(s, a.f).Some? {
      ReaderSafe(s, t, a.f);
    } else if LeaverStep(s, a.f).Some? {
      LeaverSafe(s, t, a.f);
    } else if WriterStep(s, a.f).Some? {
      WriterSafe(s, t, a.f);
    } else {
      HandSafe(s, t, a.f);
    }
  }

  lemma CallSafe(s: State, t: State, f: nat)
    requires Safe(s) && f in t.pc && t == s.Goto(f, t.At(f))
    requires Writes(t.At(f)) == Writes(s.At(f)) && Reads(t.At(f)) == Reads(s.At(f))
    ensures Safe(t)
  {
    hide Safe;
    Elsewhere(s, t, f);
    NobodyIn(s, t);
  }

  lemma OnlyHand(s: State, f: nat)
    requires Other(s.At(f)).Some?
    ensures Instruction(s, f) == HandStep(s, f)
  {
  }

  lemma OnlyStore(s: State, f: nat)
    requires s.At(f).WStore?
    ensures Instruction(s, f) == Some(s.(writer := true).Goto(f, WOut(true)))
  {
  }

  /** A clash breaks exclusion at once. */
  lemma ClashBreaks(s: State, t: State, a: Action)
    requires Base(s) && Next(s, a) == Some(t) && Clash(s, a)
    ensures !Excludes(t)
  {
    hide Queues, LockInv, FlagInv, Instruction, HandStep;
    var f := a.f;
    if s.At(f).WStore? {
      OnlyStore(s, f);
      Elsewhere(s, t, f);
      var g: nat :| Reads(s.At(g));
      assert Writes(t.At(f)) && Reads(t.At(g));
    } else {
      OnlyHand(s, f);
      OtherIsParked(s, f);
      HandMoves(s, t, f);
      HandBreaks(s, t, f, Other(s.At(f)).value);
    }
  }

  lemma HandBreaks(s: State, t: State, f: nat, n: nat)
    requires TwoMove(s, t, f, n) && !Writes(s.At(f)) && !Reads(s.At(f)) && !Writes(s.At(n)) && !Reads(s.At(n))
    requires (Reads(t.At(n)) && AnyWriter(s)) || (Writes(t.At(n)) && (AnyReader(s) || AnyWriter(s)))
    ensures !Excludes(t)
  {
    if AnyWriter(s) {
      var g: nat :| Writes(s.At(g));
      assert t.At(g) == s.At(g) && g != n;
    } else {
      var g: nat :| Reads(s.At(g));
      assert t.At(g) == s.At(g) && g != n;
    }
  }

  lemma {:induction false} NoClashSafe(states: seq<State>, actions: seq<Action>, i: nat)
    requires IsRun(states, actions) && i < |states| && forall j :: 0 <= j < i ==> !Clash(states[j], actions[j])
    ensures Safe(states[i])
  {
    hide Next, Base, Clash;
    if i == 0 {
      assert Safe(Start) by { StartSafe(); }
    } else {
      hide Safe;
      NoClashSafe(states, actions, i - 1);
      RunKeepsBase(states, actions, i - 1);
      StepKeepsSafe(states[i - 1], states[i], actions[i - 1]);
    }
  }

  lemma StartSafe()
    ensures Safe(Start)
  {
  }

  /** A run keeps writers alone in every state exactly when none of its steps is a clash. */
  lemma ExclusionIff(states: seq<State>, actions: seq<Action>)
    requires IsRun(states, actions)
    ensures (forall i :: 0 <= i < |states| ==> Excludes(states[i])) <==> forall j :: 0 <= j < |actions| ==> !Clash(states[j], actions[j])
  {
    hide Next, Base, Clash, Excludes;
    if forall j :: 0 <= j < |actions| ==> !Clash(states[j], actions[j]) {
      forall i | 0 <= i < |states|
        ensures Excludes(states[i])
      {
        NoClashSafe(states, actions, i);
      }
    } else {
      var j :| 0 <= j < |actions| && Clash(states[j], actions[j]);
      RunKeepsBase(states, actions, j);
      ClashBreaks(states[j], states[j + 1], actions[j]);
    }
  }

  // ------------------------------------------------------ what the count shows

  /** Counted as a reader: inside, or added and not yet sure of it. */
  predicate Counts(p: Pc) {
    Reads(p) || p.RRecheck? || p.RUndo?
  }

  ghost function Counted(s: State): set<nat> {
    set f | f in s.pc && Counts(s.pc[f])
  }

  function One(b: bool): nat {
    if b then 1 else 0
  }

  lemma CountSplit(s: State, f: nat)
    ensures |Counted(s)| == |Counted(s) - {f}| + One(Counts(s.At(f)))
  {
    hide Counts;
    IdleCountsNot();
    if Counts(s.At(f)) {
      assert Counted(s) == (Counted(s) - {f}) + {f};
    } else {
      assert Counted(s) == Counted(s) - {f};
    }
  }

  lemma CountGoto(s: State, f: nat, p: Pc)
    ensures |Counted(s.Goto(f, p))| == |Counted(s)| - One(Counts(s.At(f))) + One(Counts(p))
  {
    hide Counts;
    var t := s.Goto(f, p);
    CountSplit(s, f);
    CountSplit(t, f);
    assert Counted(t) - {f} == Counted(s) - {f};
  }

  lemma IdleCountsNot()
    ensures !Counts(Idle)
  {
  }

  lemma OneCounted(s: State, t: State, f: nat)
    requires f in t.pc && t.pc == s.pc[f := t.pc[f]] && s.readers == |Counted(s)|
    requires t.readers - s.readers == One(Counts(t.At(f))) - One(Counts(s.At(f)))
    ensures t.readers == |Counted(t)|
  {
    hide Counts;
    CountGoto(s, f, t.At(f));
    assert Counted(t) == Counted(s.Goto(f, t.At(f)));
  }

  lemma ReaderCount(s: State, t: State, f: nat)
    requires ReaderStep(s, f) == Some(t)
    ensures t.readers - s.readers == One(Counts(t.At(f))) - One(Counts(s.At(f)))
  {
  }

  lemma LeaverCount(s: State, t: State, f: nat)
    requires LeaverStep(s, f) == Some(t)
    ensures t.readers - s.readers == One(Counts(t.At(f))) - One(Counts(s.At(f)))
  {
  }

  lemma WriterCount(s: State, t: State, f: nat)
    requires WriterStep(s, f) == Some(t)
    ensures t.readers - s.readers == One(Counts(t.At(f))) - One(Counts(s.At(f)))
  {
  }

  lemma CallCount(s: State, t: State, a: Action)
    requires !a.Go? && Next(s, a) == Some(t)
    ensures a.f in t.pc && t.pc == s.pc[a.f := t.pc[a.f]]
    ensures t.readers - s.readers == One(Counts(t.At(a.f))) - One(Counts(s.At(a.f)))
  {
  }

  lemma HandCount(s: State, t: State, f: nat)
    requires Queues(s) && HandStep(s, f) == Some(t) && s.readers == |Counted(s)|
    ensures t.readers == |Counted(t)|
  {
    hide Counted, Queues;
    OtherIsParked(s, f);
    var n := Other(s.At(f)).value;
    var u := s.Goto(n, t.At(n));
    CountGoto(s, n, t.At(n));
    CountGoto(u, f, t.At(f));
    CountedBy(u.Goto(f, t.At(f)), t);
  }

  lemma CountedBy(s: State, t: State)
    requires s.pc == t.pc
    ensures Counted(s) == Counted(t)
  {
  }

  /** The reader count is the number of fibers inside as readers and of those about to be or to undo it. */
  lemma CountKept(s: State, t: State, a: Action)
    requires Base(s) && s.readers == |Counted(s)| && Next(s, a) == Some(t)
    ensures t.readers == |Counted(t)|
  {
    hide ReaderStep, LeaverStep, WriterStep, HandStep, Counts, Counted, Queues, Disciplined, HasLock, Relies;
    if !a.Go? {
      CallCount(s, t, a);
      OneCounted(s, t, a.f);
      return;
    }
    var f := a.f;
    if ReaderStep(s, f).Some? {
      ReaderCount(s, t, f);
      ReaderEffect(s, t, f);
      OneCounted(s, t, f);
    } else if LeaverStep(s, f).Some? {
      LeaverCount(s, t, f);
      LeaverEffect(s, t, f);
      OneCounted(s, t, f);
    } else if WriterStep(s, f).Some? {
      WriterCount(s, t, f);
      WriterEffect(s, t, f);
      OneCounted(s, t, f);
    } else {
      HandCount(s, t, f);
    }
  }

  lemma {:induction false} RunKeepsCount(states: seq<State>, actions: seq<Action>, i: nat)
    requires IsRun(states, actions) && i < |states|
    ensures states[i].readers == |Counted(states[i])|
  {
    hide Next, Base, Counted;
    if i == 0 {
      NobodyCounted();
    } else {
      RunKeepsCount(states, actions, i - 1);
      RunKeepsBase(states, actions, i - 1);
      CountKept(states[i - 1], states[i], actions[i - 1]);
    }
  }

  lemma NobodyCounted()
    ensures Counted(Start) == {}
  {
  }

  lemma ZeroMeansNone(s: State)
    requires s.readers == |Counted(s)| == 0
    ensures !AnyReader(s)
  {
    assert Counted(s) == {};
    assert forall g: nat :: Reads(s.At(g)) ==> g in Counted(s);
  }

  /**
   A writer about to set the flag in lock or try_lock looked and saw the lock
   free, with no reader inside; so any reader it clashes with came in between
   its look and its store.
   */
  lemma {:induction false} LookBeforeStore(states: seq<State>, actions: seq<Action>, j: nat, f: nat) returns (k: nat)
    requires IsRun(states, actions) && j < |states| && states[j].At(f).WStore?
    ensures k < j && actions[k] == Go(f) && states[k].At(f).WIn? && !AnyReader(states[k])
    ensures forall m :: k < m <= j ==> states[m].At(f).WStore?
  {
    hide Base, Counted, AnyReader, Next;
    assert j > 0;
    var s, t := states[j - 1], states[j];
    RunKeepsBase(states, actions, j - 1);
    RunKeepsCount(states, actions, j - 1);
    if s.At(f).WStore? {
      k := LookBeforeStore(states, actions, j - 1, f);
    } else {
      k := j - 1;
      Looks(s, t, actions[k], f);
      ZeroMeansNone(s);
    }
  }

  /** Where a step of another fiber may bring a parked one. */
  predicate Brought(p: Pc, q: Pc) {
    q == p || (p.RParked? && q == Shared) || (p.WParked? && q == WGranted) || (p.WGranted? && q == Exclusive)
  }

  /** A step of another fiber leaves f where it is, or brings it from a queue inside. */
  lemma OthersStay(s: State, t: State, a: Action, f: nat)
    requires Base(s) && Next(s, a) == Some(t) && a.f != f
    ensures Brought(s.At(f), t.At(f))
  {
    hide ReaderStep, LeaverStep, WriterStep, Queues, Disciplined, HasLock, Relies;
    if !a.Go? {
      CallCount(s, t, a);
    } else if ReaderStep(s, a.f).Some? {
      ReaderEffect(s, t, a.f);
    } else if LeaverStep(s, a.f).Some? {
      LeaverEffect(s, t, a.f);
    } else if WriterStep(s, a.f).Some? {
      WriterEffect(s, t, a.f);
    } else {
      OtherIsParked(s, a.f);
    }
  }

  lemma ReaderNoStore(s: State, t: State, f: nat)
    requires ReaderStep(s, f) == Some(t) || LeaverStep(s, f) == Some(t)
    ensures !t.At(f).WStore?
  {
  }

  lemma WriterLooks(s: State, t: State, f: nat)
    requires WriterStep(s, f) == Some(t) && t.At(f).WStore?
    ensures s.At(f).WIn? && s.readers == 0
  {
  }

  lemma Looks(s: State, t: State, a: Action, f: nat)
    requires Base(s) && Next(s, a) == Some(t) && t.At(f).WStore? && !s.At(f).WStore?
    ensures a == Go(f) && s.At(f).WIn? && s.readers == 0
  {
    hide ReaderStep, LeaverStep, WriterStep, Base;
    if a.f != f {
      OthersStay(s, t, a, f);
    } else if a.Go? {
      if ReaderStep(s, f).Some? || LeaverStep(s, f).Some? {
        ReaderNoStore(s, t, f);
      } else if WriterStep(s, f).Some? {
        WriterLooks(s, t, f);
      }
    }
  }

  /** The step a fiber comes from, in unlock and unlock_shared. */
  lemma OwnOrigin(s: State, t: State, a: Action)
    requires Next(s, a) == Some(t)
    ensures t.At(a.f).UIn? ==> s.At(a.f).UClear?
    ensures t.At(a.f).UStore? ==> s.At(a.f).UIn?
    ensures t.At(a.f).UBatch? ==> s.At(a.f).UIn? || s.At(a.f).UBatch?
    ensures t.At(a.f).SWant? ==> s.At(a.f).SSub?
    ensures t.At(a.f).SIn? ==> s.At(a.f).SWant?
    ensures t.At(a.f).SStore? ==> s.At(a.f).SIn? && s.readers == 0
  {
    hide ReaderStep, LeaverStep, WriterStep, HandStep;
    if a.Go? {
      if ReaderStep(s, a.f).Some? {
        ReaderOrigin(s, t, a.f);
      } else if LeaverStep(s, a.f).Some? {
        LeaverOrigin(s, t, a.f);
      } else if WriterStep(s, a.f).Some? {
        WriterOrigin(s, t, a.f);
      } else {
        HandOrigin(s, t, a.f);
      }
    }
  }

  lemma ReaderOrigin(s: State, t: State, f: nat)
    requires ReaderStep(s, f) == Some(t)
    ensures !t.At(f).UIn? && !t.At(f).UStore? && !t.At(f).UBatch? && !t.At(f).SWant? && !t.At(f).SIn? && !t.At(f).SStore?
  {
  }

  lemma LeaverOrigin(s: State, t: State, f: nat)
    requires LeaverStep(s, f) == Some(t)
    ensures !t.At(f).UIn? && !t.At(f).UStore? && !t.At(f).UBatch?
    ensures (t.At(f).SWant? ==> s.At(f).SSub?) && (t.At(f).SIn? ==> s.At(f).SWant?)
    ensures t.At(f).SStore? ==> s.At(f).SIn? && s.readers == 0
  {
  }

  lemma WriterOrigin(s: State, t: State, f: nat)
    requires WriterStep(s, f) == Some(t)
    ensures !t.At(f).SWant? && !t.At(f).SIn? && !t.At(f).SStore?
    ensures (t.At(f).UIn? ==> s.At(f).UClear?) && (t.At(f).UStore? ==> s.At(f).UIn?) && (t.At(f).UBatch? ==> s.At(f).UIn?)
  {
  }

  lemma HandOrigin(s: State, t: State, f: nat)
    requires HandStep(s, f) == Some(t)
    ensures !t.At(f).UIn? && !t.At(f).UStore? && !t.At(f).SWant? && !t.At(f).SIn? && !t.At(f).SStore?
    ensures t.At(f).UBatch? ==> s.At(f).UBatch?
  {
  }

  /**
   unlock to a writer: the flag is clear from the unlocker's clearing to its store,
   and it was alone when it cleared it; so a reader it clashes with came in between.
   */
  lemma {:induction false} ClearBeforeStore(states: seq<State>, actions: seq<Action>, j: nat, f: nat) returns (k: nat)
    requires IsRun(states, actions) && j < |states| && (states[j].At(f).UStore? || states[j].At(f).UIn?)
    ensures k < j && actions[k] == Go(f) && states[k].At(f).UClear? && (Excludes(states[k]) ==> !AnyReader(states[k]))
    ensures forall m :: k < m <= j ==> (states[m].At(f).UIn? || states[m].At(f).UStore?) && !states[m].writer
  {
    hide Queues, LockInv, Next;
    assert j > 0;
    var s, t := states[j - 1], states[j];
    RunKeepsBase(states, actions, j - 1);
    RunKeepsBase(states, actions, j);
    FlagAt(t, f);
    hide Base;
    if actions[j - 1].f != f {
      OthersStay(s, t, actions[j - 1], f);
    } else {
      OwnOrigin(s, t, actions[j - 1]);
    }
    if s.At(f).UIn? || s.At(f).UStore? {
      k := ClearBeforeStore(states, actions, j - 1, f);
    } else {
      k := j - 1;
      CallsOnly(s, t, actions[k]);
      Alone(s, f);
    }
  }

  lemma CallsOnly(s: State, t: State, a: Action)
    requires Next(s, a) == Some(t) && (HasLock(s.At(a.f)) || s.At(a.f).SSub? || s.At(a.f).SWant?)
    ensures a.Go?
  {
  }

  lemma Alone(s: State, f: nat)
    ensures Excludes(s) && Writes(s.At(f)) ==> !AnyReader(s)
    ensures Excludes(s) && Reads(s.At(f)) ==> !AnyWriter(s)
  {
  }

  /**
   unlock to readers: from the unlocker's look at the queues on the flag is clear
   and the queue lock is free; so a writer a reader of the batch clashes with
   came in after that look.
   */
  lemma {:induction false} TakeBeforeWake(states: seq<State>, actions: seq<Action>, j: nat, f: nat) returns (k: nat)
    requires IsRun(states, actions) && j < |states| && states[j].At(f).UBatch?
    ensures k < j && actions[k] == Go(f) && states[k].At(f).UIn? && (Safe(states[k]) ==> !AnyWriter(states[k]))
    ensures forall m :: k < m <= j ==> states[m].At(f).UBatch?
  {
    hide Queues, LockInv, Next;
    assert j > 0;
    var s, t := states[j - 1], states[j];
    RunKeepsBase(states, actions, j - 1);
    FlagAt(s, f);
    hide Base;
    if actions[j - 1].f != f {
      OthersStay(s, t, actions[j - 1], f);
    } else {
      OwnOrigin(s, t, actions[j - 1]);
    }
    if s.At(f).UBatch? {
      k := TakeBeforeWake(states, actions, j - 1, f);
    } else {
      k := j - 1;
      CallsOnly(s, t, actions[k]);
    }
  }

  /** unlock_shared: the last reader looked and saw no reader inside; so a reader it clashes with came in between look and store. */
  lemma {:induction false} LookBeforeHand(states: seq<State>, actions: seq<Action>, j: nat, f: nat) returns (k: nat)
    requires IsRun(states, actions) && j < |states| && states[j].At(f).SStore?
    ensures k < j && actions[k] == Go(f) && states[k].At(f).SIn? && !AnyReader(states[k])
    ensures forall m :: k < m <= j ==> states[m].At(f).SStore?
  {
    hide Base, Counted, AnyReader, Next;
    assert j > 0;
    var s, t := states[j - 1], states[j];
    RunKeepsBase(states, actions, j - 1);
    RunKeepsCount(states, actions, j - 1);
    if actions[j - 1].f != f {
      OthersStay(s, t, actions[j - 1], f);
    } else {
      OwnOrigin(s, t, actions[j - 1]);
    }
    if s.At(f).SStore? {
      k := LookBeforeHand(states, actions, j - 1, f);
    } else {
      k := j - 1;
      CallsOnly(s, t, actions[k]);
      ZeroMeansNone(s);
    }
  }

  lemma OwnWriter(s: State, t: State, a: Action)
    requires Next(s, a) == Some(t) && Writes(t.At(a.f)) && !s.At(a.f).WStore?
    ensures Writes(s.At(a.f))
  {
    hide ReaderStep, LeaverStep, WriterStep, HandStep;
    if a.Go? {
      if ReaderStep(s, a.f).Some? {
        ReaderClass(s, t, a.f);
      } else if LeaverStep(s, a.f).Some? {
        LeaverClass(s, t, a.f);
      } else if WriterStep(s, a.f).Some? {
        WriterClass(s, t, a.f);
      } else {
        HandClass(s, t, a.f);
      }
    }
  }

  lemma LeaverClass(s: State, t: State, f: nat)
    requires LeaverStep(s, f) == Some(t)
    ensures !Writes(t.At(f))
  {
  }

  lemma WriterClass(s: State, t: State, f: nat)
    requires WriterStep(s, f) == Some(t) && Writes(t.At(f)) && !s.At(f).WStore?
    ensures Writes(s.At(f))
  {
  }

  lemma HandClass(s: State, t: State, f: nat)
    requires HandStep(s, f) == Some(t)
    ensures !Writes(t.At(f))
  {
  }

  lemma OtherWriter(s: State, t: State, a: Action, g: nat)
    requires Base(s) && Next(s, a) == Some(t) && g != a.f && Writes(t.At(g)) && !s.At(a.f).SStore? && !s.At(a.f).UStore?
    ensures Writes(s.At(g))
  {
    hide ReaderStep, LeaverStep, WriterStep, Queues, Disciplined, HasLock, Relies;
    if !a.Go? {
      CallCount(s, t, a);
    } else if ReaderStep(s, a.f).Some? {
      ReaderEffect(s, t, a.f);
    } else if LeaverStep(s, a.f).Some? {
      LeaverEffect(s, t, a.f);
    } else if WriterStep(s, a.f).Some? {
      WriterEffect(s, t, a.f);
    } else {
      OtherIsParked(s, a.f);
    }
  }

  /**
   unlock_shared: the reader was inside, so without a writer, when it took itself
   off; from its taking of the queue lock on no writer comes in; so a writer it
   clashes with came in while it waited for the queue lock.
   */
  lemma {:induction false} WaitBeforeHand(states: seq<State>, actions: seq<Action>, j: nat, f: nat) returns (k: nat, l: nat)
    requires IsRun(states, actions) && j < |states| && (states[j].At(f).SIn? || states[j].At(f).SStore?)
    ensures k < l <= j && actions[k] == Go(f) && states[k].At(f).SSub? && (Excludes(states[k]) ==> !AnyWriter(states[k]))
    ensures forall m :: k < m < l ==> states[m].At(f).SWant?
    ensures forall m :: l <= m <= j ==> states[m].At(f).SIn? || states[m].At(f).SStore?
    ensures forall g: nat :: Writes(states[j].At(g)) ==> Writes(states[l].At(g))
  {
    hide Base, Next, Writes;
    assert j > 0;
    var s, t, a := states[j - 1], states[j], actions[j - 1];
    RunKeepsBase(states, actions, j - 1);
    if a.f != f {
      OthersStay(s, t, a, f);
    } else {
      OwnOrigin(s, t, a);
    }
    if s.At(f).SIn? || s.At(f).SStore? {
      k, l := WaitBeforeHand(states, actions, j - 1, f);
      forall g: nat | Writes(t.At(g))
        ensures Writes(s.At(g))
      {
        HandWriters(s, t, a, f, g);
      }
    } else {
      l := j;
      k := SubtractBefore(states, actions, j - 1, f);
    }
  }

  lemma HandWriters(s: State, t: State, a: Action, f: nat, g: nat)
    requires Base(s) && Next(s, a) == Some(t) && (s.At(f).SIn? || s.At(f).SStore?) && (t.At(f).SIn? || t.At(f).SStore?)
    requires Writes(t.At(g))
    ensures Writes(s.At(g))
  {
    LockAt(s, f);
    LockAt(s, a.f);
    if a.f == f {
      OwnOrigin(s, t, a);
    }
    if g == a.f {
      OwnWriter(s, t, a);
    } else {
      OtherWriter(s, t, a, g);
    }
  }

  lemma {:induction false} SubtractBefore(states: seq<State>, actions: seq<Action>, j: nat, f: nat) returns (k: nat)
    requires IsRun(states, actions) && j < |states| && states[j].At(f).SWant?
    ensures k < j && actions[k] == Go(f) && states[k].At(f).SSub? && (Excludes(states[k]) ==> !AnyWriter(states[k]))
    ensures forall m :: k < m <= j ==> states[m].At(f).SWant?
  {
    hide Base, Next;
    assert j > 0;
    var s, t, a := states[j - 1], states[j], actions[j - 1];
    RunKeepsBase(states, actions, j - 1);
    if a.f != f {
      OthersStay(s, t, a, f);
    } else {
      OwnOrigin(s, t, a);
    }
    if s.At(f).SWant? {
      k := SubtractBefore(states, actions, j - 1, f);
    } else {
      k := j - 1;
      CallsOnly(s, t, a);
      Alone(s, f);
    }
  }

  // ------------------------------------------------------- runs that go wrong

  ghost predicate Reachable(s: State) {
    exists states: seq<State>, actions: seq<Action> :: IsRun(states, actions) && states[|states| - 1] == s
  }

  lemma ReachStart()
    ensures Reachable(Start)
  {
    assert IsRun([Start], []);
  }

  lemma Reach(s: State, a: Action, t: State)
    requires Reachable(s) && Next(s, a) == Some(t)
    ensures Reachable(t)
  {
    hide Next;
    var states: seq<State>, actions: seq<Action> :| IsRun(states, actions) && states[|states| - 1] == s;
    assert IsRun(states + [t], actions + [a]);
  }

  /** A fiber alone goes through lock when it is free. */
  lemma TakesWriter(s: State, f: nat) returns (t: State)
    requires Reachable(s) && s.At(f) == Idle && s.queueLock.None? && !s.writer && s.readers == 0 && s.writerQueue == []
    ensures Reachable(t) && t == s.(writer := true).Goto(f, Exclusive)
  {
    hide Reachable;
    var u := SeesFree(s, f);
    var v := u.(writer := true).Goto(f, WOut(true));
    Reach(u, Go(f), v);
    t := v.Leave(f, Exclusive);
    Reach(v, Go(f), t);
    assert t.pc == s.pc[f := Exclusive];
  }

  /** A fiber alone goes through lock up to its store. */
  lemma SeesFree(s: State, f: nat) returns (t: State)
    requires Reachable(s) && s.At(f) == Idle && s.queueLock.None? && !s.writer && s.readers == 0 && s.writerQueue == []
    ensures Reachable(t) && t == s.(queueLock := Some(f)).Goto(f, WStore(false))
  {
    hide Reachable;
    var u := s.Goto(f, WWant(false));
    Reach(s, CallLock(f), u);
    var v := u.(queueLock := Some(f)).Goto(f, WIn(false));
    Reach(u, Go(f), v);
    t := v.Goto(f, WStore(false));
    Reach(v, Go(f), t);
    assert t.pc == s.pc[f := WStore(false)];
  }

  /** A fiber alone goes through lock and parks. */
  lemma QueuesWriter(s: State, f: nat) returns (t: State)
    requires Reachable(s) && s.At(f) == Idle && s.queueLock.None? && (s.writer || s.readers != 0 || s.writerQueue != [])
    ensures Reachable(t) && t == s.(writerQueue := s.writerQueue + [f]).Goto(f, WParked)
  {
    hide Reachable;
    var u := s.Goto(f, WWant(false));
    Reach(s, CallLock(f), u);
    var v := u.(queueLock := Some(f)).Goto(f, WIn(false));
    Reach(u, Go(f), v);
    var w := v.Goto(f, WQueue);
    Reach(v, Go(f), w);
    t := ParksWriter(w, f);
    assert t.pc == s.pc[f := WParked];
  }

  lemma ParksWriter(s: State, f: nat) returns (t: State)
    requires Reachable(s) && s.At(f) == WQueue && s.queueLock == Some(f)
    ensures Reachable(t) && t == s.(writerQueue := s.writerQueue + [f]).Leave(f, WParked)
  {
    hide Reachable;
    var x := s.(writerQueue := s.writerQueue + [f]).Goto(f, WOut(false));
    Reach(s, Go(f), x);
    t := x.Leave(f, WParked);
    Reach(x, Go(f), t);
    assert t.pc == s.pc[f := WParked];
  }

  /** A fiber alone goes through lock_shared past its first looks. */
  lemma ReaderArrives(s: State, f: nat) returns (t: State)
    requires Reachable(s) && s.At(f) == Idle && !s.writer && s.writerQueue == []
    ensures Reachable(t) && t == s.Goto(f, RAdd(false))
  {
    hide Reachable;
    var u := s.Goto(f, RLook(false));
    Reach(s, CallLockShared(f), u);
    var v := u.Goto(f, RLookQueue);
    Reach(u, Go(f), v);
    t := v.Goto(f, RAdd(false));
    Reach(v, Go(f), t);
    assert t.pc == s.pc[f := RAdd(false)];
  }

  lemma ReaderAdmitted(s: State, f: nat) returns (t: State)
    requires Reachable(s) && s.At(f) == RAdd(false) && !s.writer
    ensures Reachable(t) && t == s.(readers := s.readers + 1).Goto(f, Shared)
  {
    hide Reachable;
    var u := s.(readers := s.readers + 1).Goto(f, RRecheck(false));
    Reach(s, Go(f), u);
    t := u.Goto(f, Shared);
    Reach(u, Go(f), t);
    assert t.pc == s.pc[f := Shared];
  }

  /** A fiber alone goes through the second half of lock_shared and parks. */
  lemma QueuesReader(s: State, f: nat) returns (t: State)
    requires Reachable(s) && s.At(f) == RWant && s.queueLock.None? && (s.writer || s.writerQueue != [])
    ensures Reachable(t) && t == s.(readerQueue := s.readerQueue + [f]).Goto(f, RParked)
  {
    hide Reachable;
    var u := s.(queueLock := Some(f)).Goto(f, RIn);
    Reach(s, Go(f), u);
    var v := u.(readerQueue := s.readerQueue + [f]).Goto(f, ROut(false));
    Reach(u, Go(f), v);
    t := v.Leave(f, RParked);
    Reach(v, Go(f), t);
    assert t.pc == s.pc[f := RParked];
  }

  /** A fiber alone goes through unlock up to its look at the queues. */
  lemma ClearsFlag(s: State, f: nat) returns (t: State)
    requires Reachable(s) && s.At(f) == Exclusive && s.queueLock.None?
    ensures Reachable(t) && t == s.(writer := false, queueLock := Some(f)).Goto(f, UIn)
  {
    hide Reachable;
    var u := s.Goto(f, UWant);
    Reach(s, CallUnlock(f), u);
    var v := u.(queueLock := Some(f)).Goto(f, UClear);
    Reach(u, Go(f), v);
    t := v.(writer := false).Goto(f, UIn);
    Reach(v, Go(f), t);
    assert t.pc == s.pc[f := UIn];
  }

  /** The last reader leaves and is held up before it takes the queue lock; then it lets a second writer in beside the first. */
  lemma TwoWriters() returns (s: State)
    ensures Reachable(s) && Writes(s.At(2)) && Writes(s.At(3))
  {
    hide Reachable;
    ReachStart();
    var t := ReaderArrives(Start, 1);
    var u := ReaderAdmitted(t, 1);
    var v := LastReaderLeaves(u, 1);
    var w := TakesWriter(v, 2);
    var x := QueuesWriter(w, 3);
    s := SecondWriter(x);
  }

  lemma LastReaderLeaves(s: State, f: nat) returns (t: State)
    requires Reachable(s) && s.At(f) == Shared && s.readers == 1
    ensures Reachable(t) && t == s.(readers := 0).Goto(f, SWant)
  {
    hide Reachable;
    var u := s.Goto(f, SSub);
    Reach(s, CallUnlockShared(f), u);
    t := u.(readers := 0).Goto(f, SWant);
    Reach(u, Go(f), t);
    assert t.pc == s.pc[f := SWant];
  }

  lemma SecondWriter(x: State) returns (s: State)
    requires Reachable(x) && x.At(1) == SWant && x.queueLock.None? && x.readers == 0 && x.writerQueue == [3] && x.At(2) == Exclusive
    ensures Reachable(s) && Writes(s.At(2)) && Writes(s.At(3))
  {
    hide Reachable;
    var y := x.(queueLock := Some(1)).Goto(1, SIn);
    Reach(x, Go(1), y);
    assert [3][1..] == [];
    var z := y.(writerQueue := []).Goto(1, SStore(3));
    Reach(y, Go(1), z);
    s := z.(writer := true).Goto(3, WGranted).Goto(1, UOut(3));
    Reach(z, Go(1), s);
  }

  /** unlock takes a waiting reader and drops the queue lock; a writer comes in before the reader is counted. */
  lemma WriterAmongReaders() returns (s: State)
    ensures Reachable(s) && Reads(s.At(2)) && Writes(s.At(3))
  {
    hide Reachable;
    ReachStart();
    var t := TakesWriter(Start, 1);
    var v := ReaderRefused(t, 2);
    var w := QueuesReader(v, 2);
    s := AdmitsLate(w);
  }

  lemma ReaderRefused(s: State, f: nat) returns (t: State)
    requires Reachable(s) && s.At(f) == Idle && s.writer
    ensures Reachable(t) && t == s.Goto(f, RWant)
  {
    hide Reachable;
    var u := s.Goto(f, RLook(false));
    Reach(s, CallLockShared(f), u);
    t := u.Goto(f, RWant);
    Reach(u, Go(f), t);
    assert t.pc == s.pc[f := RWant];
  }

  lemma AdmitsLate(w: State) returns (s: State)
    requires Reachable(w) && w.At(1) == Exclusive && w.At(2) == RParked && w.At(3) == Idle && w.queueLock.None?
    requires w.readers == 0 && w.readerQueue == [2] && w.writerQueue == []
    ensures Reachable(s) && Reads(s.At(2)) && Writes(s.At(3))
  {
    hide Reachable;
    var x := ClearsFlag(w, 1);
    var y := x.(readerQueue := []).Leave(1, UBatch([2]));
    Reach(x, Go(1), y);
    var z := TakesWriter(y, 3);
    assert [2][1..] == [];
    s := z.(readers := 1).Goto(2, Shared).Goto(1, UBatch([]));
    Reach(z, Go(1), s);
  }

  /** A reader goes through its fast path between a writer's look at the count and its store. */
  lemma ReaderBesideWriter() returns (s: State)
    ensures Reachable(s) && Writes(s.At(1)) && Reads(s.At(2))
  {
    hide Reachable;
    ReachStart();
    var t := SeesFree(Start, 1);
    var u := ReaderArrives(t, 2);
    var v := ReaderAdmitted(u, 2);
    s := v.(writer := true).Goto(1, WOut(true));
    Reach(v, Go(1), s);
  }
}
