/**
 fiber_mutex as an interleaving of atomic steps: every compare-and-swap on the
 owner word, every acquisition and release of the queue spin lock, every queue
 update, every push on a wake list and every drain is a step of its own, taken
 by any number of fibers on any number of schedulers.
 */
module FiberMutex {
  import opened Common
  import Fifo

  /** Where a fiber stands in lock(), try_lock() or unlock(). */
  datatype Pc =
    | Idle               // outside the mutex
    | Fast               // lock: before the first compare-and-swap
    | Try                // try_lock: before its compare-and-swap
    | Want               // lock: spinning on the queue lock
    | Check              // lock: has the queue lock, before the second compare-and-swap
    | LeaveOwned         // lock: got the mutex in Check, before releasing the queue lock
    | Append             // lock: has the queue lock, before appending itself
    | Leave              // lock: appended, before releasing the queue lock
    | ToPark             // lock: before parking
    | Parked             // lock: suspended
    | Woken              // lock: made ready again, before returning
    | Held               // owns the mutex
    | UWant              // unlock: spinning on the queue lock
    | UIn                // unlock: has the queue lock, before looking at the queue
    | UPop(next: nat)    // unlock: took the head off the queue, before storing the owner
    | UStored(next: nat) // unlock: stored the new owner, before releasing the queue lock
    | UFree              // unlock: stored null, before releasing the queue lock
    | UWake(next: nat)   // unlock: before pushing the new owner on its wake list

  datatype State = State(
    pc: map<nat, Pc>,          // Idle when absent
    owner: Option<nat>,
    queue: seq<nat>,
    queueLock: Option<nat>,
    wakes: set<nat>,           // fibers on their scheduler's wake list
    current: map<nat, nat>,    // the fiber each scheduler is running
    enqueued: seq<nat>,        // history: every append to the queue
    granted: seq<nat>,         // history: every removal from the queue
    waker: Option<nat>)        // history: the unlocker that still owes a wake
  {
    function At(f: nat): Pc { if f in pc then pc[f] else Idle }
    function Goto(f: nat, p: Pc): State { this.(pc := pc[f := p]) }
  }

  /** A step: a call, one atomic instruction of a call, or a step of a scheduler. */
  datatype Action =
    | CallLock(f: nat) | CallTry(f: nat) | CallUnlock(f: nat)
    | Go(f: nat)
    | Suspend(f: nat)    // any other suspension, outside the mutex or while holding it
    | Resume(f: nat)
    | Drain(f: nat)      // the scheduler routes one fiber of its wake list

  /** The schedulers the fibers live on. */
  type Home = nat -> nat

  const Start := State(map[], None, [], None, {}, map[], [], [], None)

  function Running(s: State, home: Home, f: nat): bool {
    home(f) in s.current && s.current[home(f)] == f
  }

  /** The next atomic instruction of a running fiber, if it has one and is not spinning. */
  function Instruction(s: State, home: Home, f: nat): Option<State> {
    match s.At(f)
    case Fast => Some(if s.owner.None? then s.(owner := Some(f)).Goto(f, Held) else s.Goto(f, Want))
    case Try => Some(if s.owner.None? then s.(owner := Some(f)).Goto(f, Held) else s.Goto(f, Idle))
    case Want => if s.queueLock.None? then Some(s.(queueLock := Some(f)).Goto(f, Check)) else None
    case Check => Some(if s.owner.None? then s.(owner := Some(f)).Goto(f, LeaveOwned) else s.Goto(f, Append))
    case LeaveOwned => Some(s.(queueLock := None).Goto(f, Held))
    case Append => Some(s.(queue := s.queue + [f], enqueued := s.enqueued + [f]).Goto(f, Leave))
    case Leave => Some(s.(queueLock := None).Goto(f, ToPark))
    case ToPark => Some(s.(current := s.current - {home(f)}).Goto(f, Parked))
    case Woken => Some(s.Goto(f, Held))
    case UWant => if s.queueLock.None? then Some(s.(queueLock := Some(f)).Goto(f, UIn)) else None
    case UIn =>
      if s.queue != [] then
        Some(s.(queue := s.queue[1..], granted := s.granted + [s.queue[0]]).Goto(f, UPop(s.queue[0])))
      else
        Some(s.(owner := None).Goto(f, UFree))
    case UPop(n) => Some(s.(owner := Some(n), waker := Some(f)).Goto(f, UStored(n)))
    case UStored(n) => Some(s.(queueLock := None).Goto(f, UWake(n)))
    case UFree => Some(s.(queueLock := None).Goto(f, Idle))
    case UWake(n) => Some(s.(wakes := s.wakes + {n}, waker := None).Goto(f, Idle))
    case _ => None
  }

  /** The state after an action, if the action is possible. */
  function Next(s: State, home: Home, a: Action): Option<State> {
    match a
    case CallLock(f) => if Running(s, home, f) && s.At(f).Idle? then Some(s.Goto(f, Fast)) else None
    case CallTry(f) => if Running(s, home, f) && s.At(f).Idle? then Some(s.Goto(f, Try)) else None
    case CallUnlock(f) => if Running(s, home, f) && s.At(f).Held? then Some(s.Goto(f, UWant)) else None
    case Go(f) => if Running(s, home, f) then Instruction(s, home, f) else None
    case Suspend(f) =>
      if Running(s, home, f) && (s.At(f).Idle? || s.At(f).Held?) then Some(s.(current := s.current - {home(f)}))
      else None
    case Resume(f) =>
      if home(f) !in s.current && !s.At(f).Parked? then Some(s.(current := s.current[home(f) := f])) else None
    case Drain(f) =>
      if home(f) !in s.current && f in s.wakes then
        // a fiber that is not parked is dropped from the list and nothing else happens
        Some(if s.At(f).Parked? then s.(wakes := s.wakes - {f}).Goto(f, Woken) else s.(wakes := s.wakes - {f}))
      else None
  }

  /** A run: from the start, each state follows from the one before by some action. */
  ghost predicate IsRun(home: Home, states: seq<State>, actions: seq<Action>) {
    && |states| == |actions| + 1 && states[0] == Start
    && forall i :: 0 <= i < |actions| ==> Next(states[i], home, actions[i]) == Some(states[i + 1])
  }

  // ------------------------------------------------------------ the invariant

  predicate HasQueueLock(p: Pc) {
    p.Check? || p.LeaveOwned? || p.Append? || p.Leave? || p.UIn? || p.UPop? || p.UStored? || p.UFree?
  }

  /** Inside the section that the mutex protects, or leaving it. */
  predicate Owns(p: Pc) {
    p.LeaveOwned? || p.Woken? || p.Held? || p.UWant? || p.UIn? || p.UPop?
  }

  /** Has been appended and not yet been woken. */
  predicate Waits(p: Pc) {
    p.Leave? || p.ToPark? || p.Parked?
  }

  ghost predicate QueueInv(s: State) {
    && (forall f: nat :: HasQueueLock(s.At(f)) <==> s.queueLock == Some(f))
    && NoDup(s.queue)
    && (forall f: nat :: f in s.queue ==> Waits(s.At(f)) && s.owner != Some(f))
    && (s.queue != [] ==> s.owner.Some?)
    && (forall f: nat :: s.At(f).Append? ==> s.owner.Some?)
    && s.enqueued == s.granted + s.queue
  }

  ghost predicate OwnerInv(s: State) {
    && (forall f: nat :: Owns(s.At(f)) ==> s.owner == Some(f))
    && (forall f: nat :: s.owner == Some(f) ==> Owns(s.At(f)) || Waits(s.At(f)))
    && (forall f: nat :: Waits(s.At(f)) && f !in s.queue ==> s.owner == Some(f) || HandsTo(s, f))
    && (forall f: nat :: HandsTo(s, f) ==> Waits(s.At(f)) && f !in s.queue && s.granted != [] && s.granted[|s.granted| - 1] == f)
  }

  /** The holder of the queue lock has taken f off the queue and will make it the owner. */
  ghost predicate HandsTo(s: State, f: nat) {
    s.queueLock.Some? && s.At(s.queueLock.value) == UPop(f)
  }

  /** A wake is owed or pending exactly when the owner is still waiting for it. */
  ghost predicate WakeInv(s: State) {
    && (forall u: nat :: s.At(u).UStored? || s.At(u).UWake? <==> s.waker == Some(u))
    && (s.waker.Some? ==> s.owner == Some(s.At(s.waker.value).next) && Waits(s.At(s.owner.value)))
    && (forall f: nat :: f in s.wakes ==> s.owner == Some(f) && Waits(s.At(f)) && s.waker.None?)
    && (forall f: nat :: s.owner == Some(f) && Waits(s.At(f)) ==> s.waker.Some? || f in s.wakes)
  }

  /** Only a fiber outside, holding, parked or woken can be off its processor. */
  ghost predicate RunInv(s: State, home: Home) {
    && (forall h :: h in s.current ==> home(s.current[h]) == h && !s.At(s.current[h]).Parked?)
    && (forall f: nat :: !(s.At(f).Idle? || s.At(f).Held? || s.At(f).Parked? || s.At(f).Woken?) ==> Running(s, home, f))
  }

  ghost predicate MutexInv(s: State) {
    QueueInv(s) && OwnerInv(s) && WakeInv(s)
  }

  /** The places the invariant does not tell apart. */
  predicate SameClass(p: Pc, q: Pc) {
    && HasQueueLock(p) == HasQueueLock(q) && Owns(p) == Owns(q) && Waits(p) == Waits(q)
    && !(p.UPop? || p.UStored? || p.UWake? || p.Append?) && !(q.UPop? || q.UStored? || q.UWake? || q.Append?)
  }

  /** Moving within a class, and picking fibers up or putting them down, does not touch the mutex. */
  lemma SameClassStep(s: State, t: State, f: nat, p: Pc)
    requires MutexInv(s) && SameClass(s.At(f), p) && t == s.Goto(f, p).(current := t.current)
    ensures MutexInv(t)
  {
    hide QueueInv, OwnerInv, WakeInv, SameClass;
    SameClassQueue(s, t, f, p);
    SameClassOwner(s, t, f, p);
    SameClassWake(s, t, f, p);
  }

  lemma SameClassQueue(s: State, t: State, f: nat, p: Pc)
    requires QueueInv(s) && SameClass(s.At(f), p) && t == s.Goto(f, p).(current := t.current)
    ensures QueueInv(t)
  {
    assert forall g: nat :: g != f ==> t.At(g) == s.At(g);
  }

  lemma SameClassOwner(s: State, t: State, f: nat, p: Pc)
    requires OwnerInv(s) && SameClass(s.At(f), p) && t == s.Goto(f, p).(current := t.current)
    ensures OwnerInv(t)
  {
    assert forall g: nat :: g != f ==> t.At(g) == s.At(g);
    assert forall g: nat :: HandsTo(t, g) <==> HandsTo(s, g);
  }

  lemma SameClassWake(s: State, t: State, f: nat, p: Pc)
    requires WakeInv(s) && SameClass(s.At(f), p) && t == s.Goto(f, p).(current := t.current)
    ensures WakeInv(t)
  {
    assert forall g: nat :: g != f ==> t.At(g) == s.At(g);
  }

  lemma FastStep(s: State, t: State, f: nat)
    requires MutexInv(s) && (s.At(f).Fast? || s.At(f).Try?) && s.owner.None? && t == s.(owner := Some(f)).Goto(f, Held)
    ensures MutexInv(t)
  {
    assert forall g: nat :: g != f ==> t.At(g) == s.At(g);
  }

  lemma CheckTakes(s: State, t: State, f: nat)
    requires MutexInv(s) && s.At(f).Check? && s.owner.None? && t == s.(owner := Some(f)).Goto(f, LeaveOwned)
    ensures MutexInv(t)
  {
    assert forall g: nat :: g != f ==> t.At(g) == s.At(g);
  }

  lemma CheckAppends(s: State, t: State, f: nat)
    requires MutexInv(s) && s.At(f).Check? && s.owner.Some? && t == s.Goto(f, Append)
    ensures MutexInv(t)
  {
    assert forall g: nat :: g != f ==> t.At(g) == s.At(g);
  }

  lemma WantStep(s: State, t: State, f: nat)
    requires MutexInv(s) && s.At(f).Want? && s.queueLock.None? && t == s.(queueLock := Some(f)).Goto(f, Check)
    ensures MutexInv(t)
  {
    assert forall g: nat :: g != f ==> t.At(g) == s.At(g);
  }

  lemma UnlockWantStep(s: State, t: State, f: nat)
    requires MutexInv(s) && s.At(f).UWant? && s.queueLock.None? && t == s.(queueLock := Some(f)).Goto(f, UIn)
    ensures MutexInv(t)
  {
    assert forall g: nat :: g != f ==> t.At(g) == s.At(g);
  }

  lemma LeaveOwnedStep(s: State, t: State, f: nat)
    requires MutexInv(s) && s.At(f).LeaveOwned? && t == s.(queueLock := None).Goto(f, Held)
    ensures MutexInv(t)
  {
    assert forall g: nat :: g != f ==> t.At(g) == s.At(g);
  }

  lemma FreeStep(s: State, t: State, f: nat)
    requires MutexInv(s) && s.At(f).UFree? && t == s.(queueLock := None).Goto(f, Idle)
    ensures MutexInv(t)
  {
    assert forall g: nat :: g != f ==> t.At(g) == s.At(g);
  }

  lemma LeaveStep(s: State, t: State, f: nat)
    requires MutexInv(s) && s.At(f).Leave? && t == s.(queueLock := None).Goto(f, ToPark)
    ensures MutexInv(t)
  {
    assert forall g: nat :: g != f ==> t.At(g) == s.At(g);
  }

  lemma AppendStep(s: State, t: State, f: nat)
    requires MutexInv(s) && s.At(f).Append? && t == s.(queue := s.queue + [f], enqueued := s.enqueued + [f]).Goto(f, Leave)
    ensures MutexInv(t)
  {
    assert forall g: nat :: g != f ==> t.At(g) == s.At(g);
  }

  lemma PopStep(s: State, t: State, f: nat)
    requires MutexInv(s) && s.At(f).UIn? && s.queue != [] && t == s.(queue := s.queue[1..], granted := s.granted + [s.queue[0]]).Goto(f, UPop(s.queue[0]))
    ensures MutexInv(t)
  {
    assert forall g: nat :: g != f ==> t.At(g) == s.At(g);
  }

  lemma EmptyStep(s: State, t: State, f: nat)
    requires MutexInv(s) && s.At(f).UIn? && s.queue == [] && t == s.(owner := None).Goto(f, UFree)
    ensures MutexInv(t)
  {
    assert forall g: nat :: g != f ==> t.At(g) == s.At(g);
  }

  lemma HandOverStep(s: State, t: State, f: nat)
    requires MutexInv(s) && s.At(f).UPop? && t == s.(owner := Some(s.At(f).next), waker := Some(f)).Goto(f, UStored(s.At(f).next))
    ensures MutexInv(t)
  {
    assert forall g: nat :: g != f ==> t.At(g) == s.At(g);
  }

  lemma StoredStep(s: State, t: State, f: nat)
    requires MutexInv(s) && s.At(f).UStored? && t == s.(queueLock := None).Goto(f, UWake(s.At(f).next))
    ensures MutexInv(t)
  {
    assert forall g: nat :: g != f ==> t.At(g) == s.At(g);
  }

  lemma WakeStep(s: State, t: State, f: nat)
    requires MutexInv(s) && s.At(f).UWake? && t == s.(wakes := s.wakes + {s.At(f).next}, waker := None).Goto(f, Idle)
    ensures MutexInv(t)
  {
    assert forall g: nat :: g != f ==> t.At(g) == s.At(g);
  }

  lemma DrainStep(s: State, t: State, f: nat)
    requires MutexInv(s) && s.At(f).Parked? && f in s.wakes
    requires t == s.(wakes := s.wakes - {f}).Goto(f, Woken)
    ensures MutexInv(t)
  {
    assert forall g: nat :: g != f ==> t.At(g) == s.At(g);
  }

  lemma InstructionKeeps(s: State, t: State, home: Home, f: nat)
    requires MutexInv(s) && Instruction(s, home, f) == Some(t)
    ensures MutexInv(t)
  {
    hide MutexInv;
    match s.At(f) {
      case Fast | Try => if s.owner.None? { FastStep(s, t, f); } else { SameClassStep(s, t, f, t.At(f)); }
      case Check => if s.owner.None? { CheckTakes(s, t, f); } else { CheckAppends(s, t, f); }
      case Want => WantStep(s, t, f);
      case UWant => UnlockWantStep(s, t, f);
      case LeaveOwned => LeaveOwnedStep(s, t, f);
      case UFree => FreeStep(s, t, f);
      case Leave => LeaveStep(s, t, f);
      case ToPark | Woken => SameClassStep(s, t, f, t.At(f));
      case Append => AppendStep(s, t, f);
      case UIn => if s.queue != [] { PopStep(s, t, f); } else { EmptyStep(s, t, f); }
      case UPop(_) => HandOverStep(s, t, f);
      case UStored(_) => StoredStep(s, t, f);
      case UWake(_) => WakeStep(s, t, f);
      case Idle | Parked | Held =>
    }
  }

  /** What a step of fiber f does to the fibers and processors. */
  ghost predicate Moves(s: State, t: State, home: Home, f: nat) {
    && (forall g: nat :: g != f ==> t.At(g) == s.At(g))
    && (|| (t.current == s.current && !t.At(f).Parked?)
        || (t.current == s.current - {home(f)} && (t.At(f).Idle? || t.At(f).Held? || t.At(f).Parked?)))
  }

  lemma InstructionMoves(s: State, t: State, home: Home, f: nat)
    requires Instruction(s, home, f) == Some(t)
    ensures Moves(s, t, home, f)
  {
    hide Instruction;
    InstructionEffect(s, t, home, f);
  }

  lemma InstructionEffect(s: State, t: State, home: Home, f: nat)
    requires Instruction(s, home, f) == Some(t)
    ensures f in t.pc && t.pc == s.pc[f := t.pc[f]]
    ensures if s.At(f).ToPark? then t.current == s.current - {home(f)} && t.pc[f].Parked?
            else t.current == s.current && !t.pc[f].Parked?
  {
    hide Instruction;
    InstructionPc(s, t, home, f);
    InstructionCurrent(s, t, home, f);
  }

  lemma InstructionPc(s: State, t: State, home: Home, f: nat)
    requires Instruction(s, home, f) == Some(t)
    ensures f in t.pc && t.pc == s.pc[f := t.pc[f]]
  {
  }

  lemma InstructionCurrent(s: State, t: State, home: Home, f: nat)
    requires Instruction(s, home, f) == Some(t)
    ensures if s.At(f).ToPark? then t.current == s.current - {home(f)} && t.At(f).Parked?
            else t.current == s.current && !t.At(f).Parked?
  {
  }

  /** A fiber that moves on without leaving its processor, or leaves it at a suspension point. */
  lemma RunKept(s: State, t: State, home: Home, f: nat)
    requires RunInv(s, home) && Running(s, home, f) && Moves(s, t, home, f)
    ensures RunInv(t, home)
  {
    assert forall g: nat :: g != f && home(g) == home(f) ==> !Running(s, home, g);
  }

  lemma CurrentIrrelevant(s: State, t: State)
    requires MutexInv(s) && t == s.(current := t.current)
    ensures MutexInv(t)
  {
    assert forall g: nat :: t.At(g) == s.At(g);
  }

  lemma ResumeKeeps(s: State, t: State, home: Home, f: nat)
    requires RunInv(s, home) && home(f) !in s.current && !s.At(f).Parked? && t == s.(current := s.current[home(f) := f])
    ensures RunInv(t, home)
  {
    assert forall g: nat :: Running(s, home, g) ==> Running(t, home, g);
  }

  lemma DrainKeepsRun(s: State, t: State, home: Home, f: nat)
    requires RunInv(s, home) && s.At(f).Parked? && t == s.(wakes := s.wakes - {f}).Goto(f, Woken)
    ensures RunInv(t, home)
  {
    assert forall g: nat :: g != f ==> t.At(g) == s.At(g);
  }

  /** No wake is dropped: a fiber drained from a wake list is always parked. */
  lemma DrainFindsParked(s: State, home: Home, f: nat)
    requires MutexInv(s) && RunInv(s, home) && f in s.wakes && home(f) !in s.current
    ensures s.At(f).Parked?
  {
    assert Waits(s.At(f)) && !Running(s, home, f);
  }

  lemma StepKeepsInv(s: State, t: State, home: Home, a: Action)
    requires MutexInv(s) && RunInv(s, home) && Next(s, home, a) == Some(t)
    ensures MutexInv(t) && RunInv(t, home)
  {
    hide MutexInv, RunInv, Instruction;
    var f := a.f;
    match a {
      case CallLock(_) => SameClassStep(s, t, f, Fast); RunKept(s, t, home, f);
      case CallTry(_) => SameClassStep(s, t, f, Try); RunKept(s, t, home, f);
      case CallUnlock(_) => SameClassStep(s, t, f, UWant); RunKept(s, t, home, f);
      case Go(_) =>
        InstructionKeeps(s, t, home, f);
        InstructionMoves(s, t, home, f);
        RunKept(s, t, home, f);
      case Suspend(_) => CurrentIrrelevant(s, t); RunKept(s, t, home, f);
      case Resume(_) => CurrentIrrelevant(s, t); ResumeKeeps(s, t, home, f);
      case Drain(_) =>
        DrainFindsParked(s, home, f);
        DrainStep(s, t, f);
        DrainKeepsRun(s, t, home, f);
    }
  }

  lemma {:induction false} RunKeepsInv(home: Home, states: seq<State>, actions: seq<Action>, i: nat)
    requires IsRun(home, states, actions) && i < |states|
    ensures MutexInv(states[i]) && RunInv(states[i], home)
  {
    if i > 0 {
      RunKeepsInv(home, states, actions, i - 1);
      StepKeepsInv(states[i - 1], states[i], home, actions[i - 1]);
    }
  }

  // ----------------------------------------------------------- what runs keep

  /** In every state of every run: one fiber at most owns the mutex, and a waiting fiber implies an owner. */
  lemma MutualExclusion(home: Home, states: seq<State>, actions: seq<Action>, i: nat)
    requires IsRun(home, states, actions) && i < |states|
    ensures forall f: nat, g: nat :: Owns(states[i].At(f)) && Owns(states[i].At(g)) ==> f == g
    ensures states[i].queue != [] ==> states[i].owner.Some?
  {
    RunKeepsInv(home, states, actions, i);
  }

  /** The compare-and-swap of try_lock decides it at once, and that of lock gets a free mutex. */
  lemma SwapDecides(s: State, t: State, home: Home, f: nat)
    requires (s.At(f).Try? || s.At(f).Fast?) && Instruction(s, home, f) == Some(t)
    ensures s.owner.None? ==> t.owner == Some(f) && t.At(f).Held?
    ensures s.owner.Some? ==> t.owner == s.owner && (s.At(f).Try? ==> t.At(f).Idle?) && !Owns(t.At(f))
    ensures t.queue == s.queue && t.queueLock == s.queueLock && t.wakes == s.wakes
  {
  }

  /** A free mutex with nobody queued is taken by a compare-and-swap. */
  ghost predicate Takes(s: State, t: State, a: Action) {
    s.owner.None? && s.queue == [] && a.Go? && t.owner == Some(a.f)
  }

  /** The owner hands the mutex to the fiber it took off the queue last. */
  ghost predicate HandsOver(s: State, t: State, a: Action) {
    && a.Go? && s.owner == Some(a.f) && s.granted != []
    && t.owner == Some(s.granted[|s.granted| - 1]) && s.At(a.f) == UPop(t.owner.value)
  }

  ghost predicate Releases(s: State, t: State, a: Action) {
    s.owner == Some(a.f) && t.owner.None? && s.queue == []
  }

  lemma OwnerChange(s: State, t: State, home: Home, a: Action)
    requires MutexInv(s) && Next(s, home, a) == Some(t) && s.owner != t.owner
    ensures Takes(s, t, a) || HandsOver(s, t, a) || Releases(s, t, a)
  {
    var f := a.f;
    match s.At(f) {
      case UPop(n) => assert HandsTo(s, n);
      case _ =>
    }
  }

  lemma HistoryGrows(s: State, t: State, home: Home, a: Action)
    requires Next(s, home, a) == Some(t)
    ensures s.granted <= t.granted && s.enqueued <= t.enqueued
  {
  }

  /**
   Every change of owner is one of three: a compare-and-swap on a free mutex with
   nobody queued, a hand-over to the fiber queued longest, or a release with
   nobody queued.  So nobody barges past a queued fiber, and fibers leave the
   queue in the order they entered it.
   */
  lemma NoBarging(home: Home, states: seq<State>, actions: seq<Action>, i: nat)
    requires IsRun(home, states, actions) && i < |actions|
    ensures var s, t, a := states[i], states[i + 1], actions[i];
            s.owner != t.owner ==> Takes(s, t, a) || HandsOver(s, t, a) || Releases(s, t, a)
    ensures states[i].enqueued == states[i].granted + states[i].queue
    ensures states[i].granted <= states[i + 1].granted && states[i].enqueued <= states[i + 1].enqueued
  {
    RunKeepsInv(home, states, actions, i);
    HistoryGrows(states[i], states[i + 1], home, actions[i]);
    if states[i].owner != states[i + 1].owner {
      OwnerChange(states[i], states[i + 1], home, actions[i]);
    }
  }

  /**
   No wake-up is lost: a drained fiber is always parked, so the drain never drops
   it; and a fiber that was handed the mutex while it was parking or parked has
   its wake pending on the list, or some unlocker still about to push it.
   */
  lemma NoLostWake(home: Home, states: seq<State>, actions: seq<Action>, i: nat)
    requires IsRun(home, states, actions) && i < |states|
    ensures forall f: nat :: f in states[i].wakes && home(f) !in states[i].current ==> states[i].At(f).Parked?
    ensures forall f: nat :: states[i].At(f).Parked? ==>
              || f in states[i].queue
              || f in states[i].wakes
              || exists u: nat :: states[i].At(u) in {UPop(f), UStored(f), UWake(f)} && Running(states[i], home, u)
  {
    var s := states[i];
    RunKeepsInv(home, states, actions, i);
    forall f: nat | f in s.wakes && home(f) !in s.current ensures s.At(f).Parked? {
      DrainFindsParked(s, home, f);
    }
    forall f: nat | s.At(f).Parked? && f !in s.queue && f !in s.wakes
      ensures exists u: nat :: s.At(u) in {UPop(f), UStored(f), UWake(f)} && Running(s, home, u)
    {
      var u := if HandsTo(s, f) then s.queueLock.value else s.waker.value;
      assert s.At(u) in {UPop(f), UStored(f), UWake(f)} && Running(s, home, u);
    }
  }

  // ------------------------------------------------------ first in, first out

  /** The owner, or the fiber that the holder of the queue lock is about to make the owner. */
  function Heir(s: State): Option<nat> {
    if s.queueLock.Some? && s.At(s.queueLock.value).UPop? then Some(s.At(s.queueLock.value).next) else s.owner
  }

  function Line(s: State): Fifo.Line {
    Fifo.Line(Heir(s), s.queue)
  }

  /** A step of f that neither takes a fiber off the queue nor makes it the owner leaves the line as it is. */
  lemma SameLine(s: State, t: State, f: nat)
    requires t.pc == s.pc[f := t.At(f)] && !s.At(f).UPop? && !t.At(f).UPop? && t.owner == s.owner && t.queue == s.queue
    requires t.queueLock == s.queueLock || (s.queueLock in {None, Some(f)} && t.queueLock in {None, Some(f)})
    ensures Line(t) == Line(s)
  {
    assert forall g: nat :: g != f ==> t.At(g) == s.At(g);
  }

  lemma NobodyWaits(s: State, t: State)
    requires s.queue == []
    ensures Fifo.Turn(Line(s), Line(t))
  {
  }

  lemma AppendTurn(s: State, t: State, f: nat)
    requires QueueInv(s) && s.At(f).Append? && t.pc == s.pc[f := Leave] && t.queue == s.queue + [f]
    requires t.owner == s.owner && t.queueLock == s.queueLock
    ensures Fifo.Turn(Line(s), Line(t))
  {
    assert HasQueueLock(s.At(f));
  }

  lemma PopTurn(s: State, t: State, f: nat)
    requires QueueInv(s) && s.At(f).UIn? && s.queue != [] && t.pc == s.pc[f := UPop(s.queue[0])] && t.queue == s.queue[1..]
    requires t.owner == s.owner && t.queueLock == s.queueLock
    ensures Fifo.Turn(Line(s), Line(t))
  {
    assert HasQueueLock(s.At(f)) && s.queue[0] in s.queue;
  }

  lemma StoreTurn(s: State, t: State, f: nat)
    requires QueueInv(s) && s.At(f).UPop? && t.pc == s.pc[f := UStored(s.At(f).next)] && t.queue == s.queue
    requires t.owner == Some(s.At(f).next) && t.queueLock == s.queueLock
    ensures Line(t) == Line(s)
  {
    assert HasQueueLock(s.At(f));
  }

  lemma InstructionTurn(s: State, t: State, home: Home, f: nat)
    requires MutexInv(s) && Instruction(s, home, f) == Some(t)
    ensures Fifo.Turn(Line(s), Line(t))
  {
    hide Line, OwnerInv, WakeInv;
    if s.queue == [] {
      NobodyWaits(s, t);
    } else {
      InstructionPc(s, t, home, f);
      LockHolder(s, f);
      match s.At(f) {
        case Append => AppendTurn(s, t, f);
        case UIn => PopTurn(s, t, f);
        case UPop(_) => StoreTurn(s, t, f);
        case _ => SameLine(s, t, f);
      }
    }
  }

  lemma LockHolder(s: State, f: nat)
    requires QueueInv(s)
    ensures HasQueueLock(s.At(f)) <==> s.queueLock == Some(f)
    ensures s.queue != [] ==> s.owner.Some?
  {
  }

  /** No step overtakes the queue: the fiber at its head is the next to be handed the mutex. */
  lemma StepTurn(s: State, t: State, home: Home, a: Action)
    requires MutexInv(s) && Next(s, home, a) == Some(t)
    ensures Fifo.Turn(Line(s), Line(t))
  {
    hide Instruction, Line, MutexInv;
    var f := a.f;
    match a {
      case Go(_) => InstructionTurn(s, t, home, f);
      case Suspend(_) => SameWords(s, t);
      case Resume(_) => SameWords(s, t);
      case _ =>
        assert t.pc == s.pc[f := t.At(f)] || t.pc == s.pc;
        if t.pc == s.pc { SameWords(s, t); } else { SameLine(s, t, f); }
    }
  }

  lemma SameWords(s: State, t: State)
    requires t.pc == s.pc && t.owner == s.owner && t.queue == s.queue && t.queueLock == s.queueLock
    ensures Line(t) == Line(s)
  {
  }

  ghost function Lines(states: seq<State>): seq<Fifo.Line> {
    seq(|states|, i requires 0 <= i < |states| => Line(states[i]))
  }

  lemma LinesTurn(home: Home, states: seq<State>, actions: seq<Action>)
    requires IsRun(home, states, actions)
    ensures Fifo.Turns(Lines(states))
  {
    hide MutexInv, RunInv, Next, Line;
    var lines := Lines(states);
    forall i | 0 <= i < |lines| - 1 ensures Fifo.Turn(lines[i], lines[i + 1]) {
      RunKeepsInv(home, states, actions, i);
      StepTurn(states[i], states[i + 1], home, actions[i]);
    }
  }

  /** Whoever is given the mutex keeps it until it has held it and lets it go itself. */
  lemma HeirGoes(s: State, t: State, home: Home, f: nat, g: nat)
    requires MutexInv(s) && Instruction(s, home, g) == Some(t) && Heir(s) == Some(f)
    ensures Heir(t) == Some(f) || (s.owner == Some(f) && Owns(s.At(f)))
  {
    hide WakeInv, Heir, QueueInv, OwnerInv;
    InstructionPc(s, t, home, g);
    LockHolder(s, g);
    match s.At(g) {
      case UIn => OwnerLets(s, f, g);
      case UPop(_) => StoreTurn(s, t, g);
      case Append => AppendHeir(s, t, g);
      case Fast | Try | Check =>
        if s.owner.None? { TakeHeir(s, f); } else { SameHeir(s, t, g); }
      case _ => SameHeir(s, t, g);
    }
  }

  lemma OwnerLets(s: State, f: nat, g: nat)
    requires QueueInv(s) && OwnerInv(s) && s.At(g).UIn? && Heir(s) == Some(f)
    ensures s.owner == Some(f) && Owns(s.At(f))
  {
    assert HasQueueLock(s.At(g)) && Owns(s.At(g));
  }

  lemma AppendHeir(s: State, t: State, g: nat)
    requires QueueInv(s) && s.At(g).Append? && t.pc == s.pc[g := Leave] && t.owner == s.owner && t.queueLock == s.queueLock
    ensures Heir(t) == Heir(s)
  {
    assert HasQueueLock(s.At(g));
  }

  lemma SameHeir(s: State, t: State, f: nat)
    requires t.pc == s.pc[f := t.At(f)] && !s.At(f).UPop? && !t.At(f).UPop? && t.owner == s.owner
    requires t.queueLock == s.queueLock || (s.queueLock in {None, Some(f)} && t.queueLock in {None, Some(f)})
    ensures Heir(t) == Heir(s)
  {
    assert forall g: nat :: g != f ==> t.At(g) == s.At(g);
  }

  lemma TakeHeir(s: State, f: nat)
    requires OwnerInv(s) && s.owner.None?
    ensures Heir(s) != Some(f)
  {
    if s.queueLock.Some? { assert Owns(s.At(s.queueLock.value)) ==> s.owner.Some?; }
  }

  ghost predicate HeldBetween(states: seq<State>, f: nat, m: nat, n: nat) {
    exists k :: m <= k < n && k < |states| && states[k].owner == Some(f) && Owns(states[k].At(f))
  }

  lemma StepHeir(s: State, t: State, home: Home, a: Action, f: nat)
    requires MutexInv(s) && Next(s, home, a) == Some(t) && Heir(s) == Some(f)
    ensures Heir(t) == Some(f) || (s.owner == Some(f) && Owns(s.At(f)))
  {
    hide Instruction, MutexInv;
    match a {
      case Go(g) => HeirGoes(s, t, home, f, g);
      case Drain(g) => if s.At(g).Parked? { SameHeir(s, t, g); }
      case Suspend(_) => SameWords(s, t);
      case Resume(_) => SameWords(s, t);
      case _ => SameHeir(s, t, a.f);
    }
  }

  lemma {:induction false} HeirHolds(home: Home, states: seq<State>, actions: seq<Action>, m: nat, n: nat, f: nat)
    requires IsRun(home, states, actions) && m <= n < |states| && Heir(states[m]) == Some(f) && Heir(states[n]) != Some(f)
    ensures HeldBetween(states, f, m, n)
    decreases n - m
  {
    hide Next, Heir, MutexInv, RunInv;
    RunKeepsInv(home, states, actions, m);
    if Heir(states[m + 1]) == Some(f) {
      HeirHolds(home, states, actions, m + 1, n, f);
    } else {
      StepHeir(states[m], states[m + 1], home, actions[m], f);
    }
  }

  /**
   Whoever neither has the mutex nor is queued before fiber i of the queue is given
   it only after that fiber has held it.
   */
  lemma NoOvertaking(home: Home, states: seq<State>, actions: seq<Action>, m: nat, n: nat, i: nat, g: nat)
    requires IsRun(home, states, actions) && m <= n < |states| && i < |states[m].queue|
    requires Heir(states[m]) != Some(g) && g !in states[m].queue[..i + 1] && Heir(states[n]) == Some(g)
    ensures HeldBetween(states, states[m].queue[i], m, n)
  {
    hide Next, Heir;
    LinesTurn(home, states, actions);
    var f := states[m].queue[i];
    assert f in states[m].queue[..i + 1];
    Fifo.NoOvertaking(Lines(states), m, n, i, g);
    var k :| m < k < n && Lines(states)[k].head == Some(f);
    HeirHolds(home, states, actions, k, n, f);
  }
}
