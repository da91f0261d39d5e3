/**
 Any number of fiber_tx_mutex locks shared by any number of fibers.  A step is
 one call up to its park, the rest of a lock() after the park, or a change a
 caller makes to its own transaction; each runs under the lock's queue lock.
 */
module TxMutex {
  import opened Common
  import Fifo

  datatype Lock = Lock(owner: Option<nat>, ownerTs: nat, queue: seq<nat>)

  const Unlocked := Lock(None, 0, [])

  datatype State = State(
    locks: map<nat, Lock>,     // Unlocked when absent
    wounded: set<nat>,
    ts: map<nat, nat>,         // each fiber's tx_timestamp, 0 when absent
    waiting: map<nat, nat>,    // the lock a parked fiber is queued on
    woken: map<nat, nat>)      // the lock a fiber was handed and has not yet checked its wound for
  {
    function L(l: nat): Lock { if l in locks then locks[l] else Unlocked }
    function Ts(f: nat): nat { if f in ts then ts[f] else 0 }
    function Active(f: nat): bool { f !in waiting && f !in woken }
  }

  datatype Action =
    | Begin(f: nat, t: nat)      // a fiber starts a transaction of timestamp t
    | Clear(f: nat)              // a caller that caught the wound clears its own flag
    | Acquire(f: nat, l: nat)    // lock(), up to return or park
    | TryAcquire(f: nat, l: nat)
    | Return(f: nat)             // lock(), after the park
    | Release(f: nat, l: nat)    // unlock()

  const Start := State(map[], {}, map[], map[], map[])

  /** unlock(): hand the lock to the fiber queued longest, or free it. */
  function Unlock(s: State, l: nat): State {
    var q := s.L(l).queue;
    if q == [] then s.(locks := s.locks[l := Unlocked])
    else s.(locks := s.locks[l := Lock(Some(q[0]), s.Ts(q[0]), q[1..])],
            waiting := s.waiting - {q[0]}, woken := s.woken[q[0] := l])
  }

  /** The state after an action, if its caller may take it. */
  function Next(s: State, a: Action): Option<State> {
    match a
    case Begin(f, t) =>
      if s.Active(f) && !OwnsAny(s, f) then Some(s.(ts := s.ts[f := t])) else None
    case Clear(f) => if s.Active(f) then Some(s.(wounded := s.wounded - {f})) else None
    case Acquire(f, l) =>
      if !s.Active(f) then None
      else if s.L(l).owner.None? then
        Some(s.(locks := s.locks[l := Lock(Some(f), s.Ts(f), s.L(l).queue)], wounded := s.wounded - {f}))
      else
        var victim := if s.Ts(f) < s.L(l).ownerTs then {s.L(l).owner.value} else {};
        Some(s.(locks := s.locks[l := s.L(l).(queue := s.L(l).queue + [f])],
                wounded := s.wounded + victim, waiting := s.waiting[f := l]))
    case TryAcquire(f, l) =>
      if !s.Active(f) then None
      else if s.L(l).owner.None? then Some(s.(locks := s.locks[l := Lock(Some(f), s.Ts(f), s.L(l).queue)]))
      else Some(s)
    case Return(f) =>
      if f !in s.woken then None
      else
        var resumed := s.(woken := s.woken - {f});
        // wounded while it waited: release and throw
        if f in s.wounded then Some(Unlock(resumed, s.woken[f])) else Some(resumed)
    case Release(f, l) => if s.Active(f) && s.L(l).owner == Some(f) then Some(Unlock(s, l)) else None
  }

  function OwnsAny(s: State, f: nat): bool {
    exists l :: l in s.locks && s.locks[l].owner == Some(f)
  }

  ghost predicate IsRun(states: seq<State>, actions: seq<Action>) {
    && |states| == |actions| + 1 && states[0] == Start
    && forall i :: 0 <= i < |actions| ==> Next(states[i], actions[i]) == Some(states[i + 1])
  }

  /**
   Queues hold exactly the parked fibers, once; a queue implies an owner; a fiber
   handed a lock owns it; the recorded timestamp is the owner's.
   */
  ghost predicate Inv(s: State) {
    (forall l: nat :: LockOk(s, l)) && (forall f: nat :: FiberOk(s, f))
  }

  ghost predicate LockOk(s: State, l: nat) {
    && (forall f: nat :: f in s.L(l).queue ==> f in s.waiting && s.waiting[f] == l)
    && NoDup(s.L(l).queue)
    && (s.L(l).queue != [] ==> s.L(l).owner.Some?)
    && (s.L(l).owner.Some? ==> s.L(l).ownerTs == s.Ts(s.L(l).owner.value))
  }

  ghost predicate FiberOk(s: State, f: nat) {
    && (f in s.waiting ==> f in s.L(s.waiting[f]).queue)
    && (f in s.woken ==> f !in s.waiting && s.L(s.woken[f]).owner == Some(f))
  }

  lemma InvAt(s: State, l: nat, f: nat)
    requires Inv(s)
    ensures LockOk(s, l) && FiberOk(s, f)
  {
  }

  lemma UnlockKeepsInv(s: State, l: nat)
    requires Inv(s) && (forall f :: f in s.woken ==> s.woken[f] != l)
    ensures Inv(Unlock(s, l))
  {
    var q, t := s.L(l).queue, Unlock(s, l);
    assert LockOk(s, l);
    assert q != [] ==> q == [q[0]] + q[1..];
    UnlockKeepsLocks(s, l);
    forall f: nat ensures FiberOk(t, f) {
      assert FiberOk(s, f);
      if f in s.waiting && s.waiting[f] != l { assert t.L(s.waiting[f]) == s.L(s.waiting[f]); }
    }
  }

  lemma UnlockKeepsLocks(s: State, l: nat)
    requires Inv(s)
    ensures forall m: nat :: LockOk(Unlock(s, l), m)
  {
    var q, t := s.L(l).queue, Unlock(s, l);
    assert LockOk(s, l);
    assert q != [] ==> q == [q[0]] + q[1..];
    forall m: nat ensures LockOk(t, m) {
      assert LockOk(s, m);
      if m != l { assert t.L(m) == s.L(m); }
    }
  }

  lemma OwnerIsQuiet(s: State, f: nat, l: nat)
    requires Inv(s) && s.L(l).owner == Some(f) && (s.Active(f) || (f in s.woken && s.woken[f] == l))
    ensures forall g :: g in s.woken && s.woken[g] == l ==> g == f
  {
    forall g | g in s.woken && s.woken[g] == l ensures g == f {
      assert FiberOk(s, g);
    }
  }

  /** Steps that leave the locks and the queues alone. */
  lemma SameLocksKeepInv(s: State, t: State)
    requires Inv(s) && t.locks == s.locks && t.waiting == s.waiting && t.ts == s.ts
    requires forall f :: f in t.woken ==> f in s.woken && t.woken[f] == s.woken[f]
    ensures Inv(t)
  {
    forall l: nat ensures LockOk(t, l) { assert LockOk(s, l) && t.L(l) == s.L(l); }
    forall f: nat ensures FiberOk(t, f) { assert FiberOk(s, f); }
  }

  lemma AcquireKeepsInv(s: State, t: State, f: nat, l: nat)
    requires Inv(s) && (Next(s, Acquire(f, l)) == Some(t) || Next(s, TryAcquire(f, l)) == Some(t))
    ensures Inv(t)
  {
    assert LockOk(s, l) && FiberOk(s, f);
    assert f !in s.L(l).queue;
    AcquireKeepsLocks(s, t, f, l);
    hide LockOk;
    forall g: nat ensures FiberOk(t, g) { assert FiberOk(s, g); }
  }

  lemma AcquireKeepsLocks(s: State, t: State, f: nat, l: nat)
    requires Inv(s) && (Next(s, Acquire(f, l)) == Some(t) || Next(s, TryAcquire(f, l)) == Some(t))
    ensures forall m: nat :: LockOk(t, m)
  {
    hide LockOk, Next;
    forall m: nat ensures LockOk(t, m) {
      InvAt(s, l, f);
      InvAt(s, m, f);
      AcquireKeepsLock(s, t, f, l, m);
    }
  }

  lemma AcquireKeepsLock(s: State, t: State, f: nat, l: nat, m: nat)
    requires LockOk(s, l) && LockOk(s, m) && FiberOk(s, f)
    requires Next(s, Acquire(f, l)) == Some(t) || Next(s, TryAcquire(f, l)) == Some(t)
    ensures LockOk(t, m)
  {
    hide LockOk;
    if s.L(l).owner.None? {
      LockTaken(s, t, f, l, m);
    } else if t.waiting != s.waiting {
      LockQueued(s, t, f, l, m);
    } else {
      SameLock(s, t, m);
    }
  }

  lemma SameLock(s: State, t: State, m: nat)
    requires LockOk(s, m) && t.locks == s.locks && t.waiting == s.waiting && t.ts == s.ts
    ensures LockOk(t, m)
  {
  }

  lemma LockTaken(s: State, t: State, f: nat, l: nat, m: nat)
    requires LockOk(s, m) && t.waiting == s.waiting && t.ts == s.ts
    requires t.locks == s.locks[l := Lock(Some(f), s.Ts(f), s.L(l).queue)]
    ensures LockOk(t, m)
  {
    if m != l { assert t.L(m) == s.L(m); }
  }

  lemma LockQueued(s: State, t: State, f: nat, l: nat, m: nat)
    requires LockOk(s, m) && f !in s.waiting && s.L(l).owner.Some? && t.ts == s.ts
    requires t.locks == s.locks[l := s.L(l).(queue := s.L(l).queue + [f])] && t.waiting == s.waiting[f := l]
    ensures LockOk(t, m)
  {
    assert f !in s.L(m).queue;
    if m != l { assert t.L(m) == s.L(m); }
  }

  lemma BeginKeepsInv(s: State, t: State, f: nat, ts: nat)
    requires Inv(s) && Next(s, Begin(f, ts)) == Some(t)
    ensures Inv(t)
  {
    forall l: nat ensures LockOk(t, l) { assert LockOk(s, l) && t.L(l) == s.L(l) && s.L(l).owner != Some(f); }
    forall g: nat ensures FiberOk(t, g) { assert FiberOk(s, g); }
  }

  lemma StepKeepsInv(s: State, t: State, a: Action)
    requires Inv(s) && Next(s, a) == Some(t)
    ensures Inv(t)
  {
    hide Inv;
    match a {
      case Begin(f, ts) => BeginKeepsInv(s, t, f, ts);
      case Clear(_) => SameLocksKeepInv(s, t);
      case Acquire(f, l) => AcquireKeepsInv(s, t, f, l);
      case TryAcquire(f, l) => AcquireKeepsInv(s, t, f, l);
      case Return(f) =>
        InvAt(s, s.woken[f], f);
        SameLocksKeepInv(s, s.(woken := s.woken - {f}));
        if f in s.wounded { ReleaseKeepsInv(s.(woken := s.woken - {f}), s, f, s.woken[f]); }
      case Release(f, l) =>
        ReleaseKeepsInv(s, s, f, l);
    }
  }

  /** s0 is s, or s before the releasing fiber f came back from its park. */
  lemma ReleaseKeepsInv(s: State, s0: State, f: nat, l: nat)
    requires Inv(s0) && Inv(s) && s0.L(l).owner == Some(f) && s.woken == s0.woken - {f}
    requires s0.Active(f) || (f in s0.woken && s0.woken[f] == l)
    ensures Inv(Unlock(s, l))
  {
    OwnerIsQuiet(s0, f, l);
    UnlockKeepsInv(s, l);
  }

  /** In every state of every run the invariant holds: in particular a non-empty queue implies an owner. */
  lemma {:induction false} RunKeepsInv(states: seq<State>, actions: seq<Action>, i: nat)
    requires IsRun(states, actions) && i < |states|
    ensures Inv(states[i])
  {
    if i > 0 {
      RunKeepsInv(states, actions, i - 1);
      StepKeepsInv(states[i - 1], states[i], actions[i - 1]);
    }
  }

  // ------------------------------------------------------------------ wounds

  /** In a transaction: holding, waiting for, or having just been handed a lock. */
  ghost predicate Live(s: State, f: nat) {
    !s.Active(f) || OwnsAny(s, f)
  }

  ghost predicate HasOlder(s: State, f: nat) {
    exists g: nat :: Live(s, g) && s.Ts(g) < s.Ts(f)
  }

  /**
   Whoever is wounded by a step owns a lock that a strictly older transaction has
   just queued for.  So no step wounds a transaction that is oldest among the
   live ones.
   */
  lemma WoundedByOlder(states: seq<State>, actions: seq<Action>, i: nat, v: nat)
    requires IsRun(states, actions) && i < |actions|
    requires v in states[i + 1].wounded && v !in states[i].wounded
    ensures var s, t, a := states[i], states[i + 1], actions[i];
            && a.Acquire? && s.L(a.l).owner == Some(v) && t.L(a.l).owner == Some(v)
            && a.f in t.L(a.l).queue && t.Ts(a.f) < t.Ts(v)
    ensures HasOlder(states[i + 1], v)
  {
    RunKeepsInv(states, actions, i);
    RunKeepsInv(states, actions, i + 1);
    InvAt(states[i], actions[i].l, actions[i].f);
    InvAt(states[i + 1], actions[i].l, actions[i].f);
    assert Live(states[i + 1], actions[i].f);
  }

  /**
   A lock() that throws on its wound leaves the thrower without the lock: it is
   free or handed to the fiber queued longest.  One that returns leaves it owner.
   */
  lemma ThrowReleases(states: seq<State>, actions: seq<Action>, i: nat)
    requires IsRun(states, actions) && i < |actions| && actions[i].Return?
    ensures var s, t, f := states[i], states[i + 1], actions[i].f;
            && f in s.woken && s.L(s.woken[f]).owner == Some(f) && t.Active(f)
            && (f in s.wounded ==>
                  && t.L(s.woken[f]).owner != Some(f)
                  && t.L(s.woken[f]).owner == (if s.L(s.woken[f]).queue == [] then None else Some(s.L(s.woken[f]).queue[0])))
            && (f !in s.wounded ==> t.L(s.woken[f]).owner == Some(f))
  {
    var s, f := states[i], actions[i].f;
    RunKeepsInv(states, actions, i);
    assert Next(s, actions[i]) == Some(states[i + 1]);
    InvAt(s, s.woken[f], f);
  }

  /** lock() and try_lock() on a free lock make the caller its owner; lock() also clears the caller's wound. */
  lemma FreeIsTaken(s: State, t: State, a: Action)
    requires Inv(s) && (a.Acquire? || a.TryAcquire?) && s.L(a.l).owner.None? && Next(s, a) == Some(t)
    ensures t.L(a.l) == Lock(Some(a.f), s.Ts(a.f), []) && t.Active(a.f)
    ensures forall m: nat :: m != a.l ==> t.L(m) == s.L(m)
    ensures forall g: nat :: g in t.wounded <==> g in s.wounded && (a.TryAcquire? || g != a.f)
  {
    InvAt(s, a.l, a.f);
  }

  /** On a held lock try_lock() does nothing; lock() queues the caller last, and wounds the owner exactly when the caller is older. */
  lemma HeldIsAwaited(s: State, t: State, a: Action)
    requires Inv(s) && (a.Acquire? || a.TryAcquire?) && s.L(a.l).owner.Some? && Next(s, a) == Some(t)
    ensures a.TryAcquire? ==> t == s
    ensures a.Acquire? ==>
      var owner := s.L(a.l).owner.value;
      && t.L(a.l).owner == s.L(a.l).owner && t.L(a.l).queue == s.L(a.l).queue + [a.f] && !t.Active(a.f)
      && (forall m: nat :: m != a.l ==> t.L(m) == s.L(m))
      && forall g: nat :: g in t.wounded <==> g in s.wounded || (g == owner && s.Ts(a.f) < s.Ts(owner))
  {
    InvAt(s, a.l, a.f);
  }

  /** A fiber sets its own timestamp and clears its own wound, and nothing else. */
  lemma OwnTransaction(s: State, t: State, a: Action)
    requires (a.Begin? || a.Clear?) && Next(s, a) == Some(t)
    ensures forall g: nat :: t.Ts(g) == if a.Begin? && g == a.f then a.t else s.Ts(g)
    ensures forall g: nat :: g in t.wounded <==> g in s.wounded && (a.Begin? || g != a.f)
    ensures t.locks == s.locks && t.waiting == s.waiting && t.woken == s.woken
  {
  }

  /** A lock handed on goes, with its new owner's timestamp, to a fiber that has yet to check its wound. */
  lemma HandedIsWoken(s: State, t: State, a: Action, l: nat, g: nat)
    requires Inv(s) && Next(s, a) == Some(t) && s.L(l).owner.Some? && t.L(l).owner == Some(g) && s.L(l).owner != Some(g)
    ensures s.L(l).queue != [] && s.L(l).queue[0] == g && t.L(l).ownerTs == s.Ts(g)
    ensures g in t.woken && t.woken[g] == l && g !in t.waiting
  {
    InvAt(s, l, a.f);
    if a.Return? { InvAt(s, s.woken[a.f], a.f); }
  }

  /** A lock() that returns leaves its caller owner of the lock and not wounded. */
  lemma ReturnsUnwounded(states: seq<State>, actions: seq<Action>, i: nat)
    requires IsRun(states, actions) && i < |actions|
    ensures var s, t, a := states[i], states[i + 1], actions[i];
      && (a.Acquire? && s.L(a.l).owner.None? ==> t.L(a.l).owner == Some(a.f) && a.f !in t.wounded)
      && (a.Return? && a.f in s.woken && a.f !in s.wounded ==> t.L(s.woken[a.f]).owner == Some(a.f) && a.f !in t.wounded)
  {
    hide Inv;
    RunKeepsInv(states, actions, i);
    var s, t, a := states[i], states[i + 1], actions[i];
    if a.Acquire? && s.L(a.l).owner.None? { FreeIsTaken(s, t, a); }
    if a.Return? { ThrowReleases(states, actions, i); }
  }

  // ------------------------------------------------------ first in, first out

  function Line(s: State, l: nat): Fifo.Line {
    Fifo.Line(s.L(l).owner, s.L(l).queue)
  }

  lemma UnlockTurn(s: State, l: nat, m: nat)
    requires LockOk(s, l) && s.L(l).owner.Some? && s.L(l).owner.value !in s.L(l).queue
    ensures Fifo.Turn(Line(s, m), Line(Unlock(s, l), m))
    ensures m != l ==> Unlock(s, l).L(m) == s.L(m)
  {
    var q := s.L(l).queue;
    assert q != [] ==> q[0] in q;
  }

  /** A lock changes hands only by a step of its owner, and then goes to the fiber queued longest. */
  lemma LockTurn(s: State, t: State, a: Action, m: nat)
    requires Inv(s) && Next(s, a) == Some(t)
    ensures Fifo.Turn(Line(s, m), Line(t, m))
    ensures t.L(m).owner != s.L(m).owner && s.L(m).owner.Some? ==> (a.Release? || a.Return?) && s.L(m).owner == Some(a.f)
  {
    hide Unlock;
    match a {
      case Acquire(f, l) => InvAt(s, l, f);
      case TryAcquire(f, l) => InvAt(s, l, f);
      case Return(f) =>
        InvAt(s, s.woken[f], f);
        UnlockTurn(s.(woken := s.woken - {f}), s.woken[f], m);
      case Release(f, l) =>
        InvAt(s, l, f);
        UnlockTurn(s, l, m);
      case _ =>
    }
  }

  ghost function Lines(states: seq<State>, l: nat): seq<Fifo.Line> {
    seq(|states|, i requires 0 <= i < |states| => Line(states[i], l))
  }

  lemma LinesTurn(states: seq<State>, actions: seq<Action>, l: nat)
    requires IsRun(states, actions)
    ensures Fifo.Turns(Lines(states, l))
  {
    hide Inv, Next, Line;
    var lines := Lines(states, l);
    forall i | 0 <= i < |lines| - 1 ensures Fifo.Turn(lines[i], lines[i + 1]) {
      RunKeepsInv(states, actions, i);
      LockTurn(states[i], states[i + 1], actions[i], l);
    }
  }

  ghost predicate OwnedBetween(states: seq<State>, l: nat, f: nat, m: nat, n: nat) {
    exists k :: m < k < n && k < |states| && states[k].L(l).owner == Some(f)
  }

  /** Whoever neither owns a lock nor is queued on it before fiber i of its queue owns it only after that fiber has. */
  lemma NoOvertaking(states: seq<State>, actions: seq<Action>, m: nat, n: nat, l: nat, i: nat, g: nat)
    requires IsRun(states, actions) && m <= n < |states| && i < |states[m].L(l).queue|
    requires states[m].L(l).owner != Some(g) && g !in states[m].L(l).queue[..i + 1] && states[n].L(l).owner == Some(g)
    ensures OwnedBetween(states, l, states[m].L(l).queue[i], m, n)
  {
    hide Next;
    LinesTurn(states, actions, l);
    Fifo.NoOvertaking(Lines(states, l), m, n, i, g);
    var f := states[m].L(l).queue[i];
    var k :| m < k < n && Lines(states, l)[k].head == Some(f);
    assert states[k].L(l).owner == Some(f);
  }

  // --------------------------------------------------------------- deadlocks

  /** The fiber that f waits for: the owner of the lock it is queued on. */
  function Edge(s: State, f: nat): Option<nat> {
    if f in s.waiting then s.L(s.waiting[f]).owner else None
  }

  function Follow(s: State, f: nat, n: nat): Option<nat>
    decreases n
  {
    if n == 0 then Some(f)
    else match Edge(s, f) case None => None case Some(g) => Follow(s, g, n - 1)
  }

  /** Some fiber waits, through a chain of waiting owners, for itself. */
  ghost predicate Deadlocked(s: State) {
    exists f: nat, n: nat :: n > 0 && Follow(s, f, n) == Some(f)
  }

  ghost predicate Reaches(s: State, a: nat, b: nat) {
    exists n: nat :: Follow(s, a, n) == Some(b)
  }

  /** Following owners from the owner of l leads to f. */
  ghost predicate LeadsTo(s: State, l: nat, f: nat) {
    s.L(l).owner.Some? && Reaches(s, s.L(l).owner.value, f)
  }

  /** A path survives any change that leaves the edges it uses. */
  lemma {:induction false} PathKept(s: State, t: State, a: nat, n: nat, b: nat)
    requires forall x: nat :: Edge(s, x).Some? ==> Edge(t, x) == Edge(s, x)
    requires Follow(s, a, n) == Some(b)
    ensures Follow(t, a, n) == Some(b)
    decreases n
  {
    if n > 0 { PathKept(s, t, Edge(s, a).value, n - 1, b); }
  }

  /** A path that does not end at the sink z never used an edge into z. */
  lemma {:induction false} SinkAvoided(s: State, t: State, z: nat, a: nat, n: nat, b: nat)
    requires Edge(s, z).None?
    requires forall x: nat :: Edge(s, x).Some? && Edge(s, x) != Some(z) ==> Edge(t, x) == Edge(s, x)
    requires Follow(s, a, n) == Some(b) && b != z
    ensures Follow(t, a, n) == Some(b)
    decreases n
  {
    if n > 0 {
      var x := Edge(s, a).value;
      if x != z { SinkAvoided(s, t, z, x, n - 1, b); }
    }
  }

  lemma {:induction false} Joined(s: State, a: nat, m: nat, b: nat, n: nat, c: nat)
    requires Follow(s, a, m) == Some(b) && Follow(s, b, n) == Some(c)
    ensures Follow(s, a, m + n) == Some(c)
    decreases m
  {
    if m > 0 { Joined(s, Edge(s, a).value, m - 1, b, n, c); }
  }

  /** With one new edge f -> o, a path is an old one or reaches f by old edges. */
  lemma {:induction false} SplitAtNew(s: State, t: State, f: nat, o: nat, a: nat, n: nat, b: nat) returns (k: nat)
    requires Edge(s, f).None? && Edge(t, f) == Some(o) && forall x: nat :: x != f ==> Edge(t, x) == Edge(s, x)
    requires Follow(t, a, n) == Some(b)
    ensures Follow(s, a, n) == Some(b) || (k < n && Follow(s, a, k) == Some(f) && Follow(t, o, n - k - 1) == Some(b))
    decreases n
  {
    k := 0;
    if n > 0 && a != f {
      var j := SplitAtNew(s, t, f, o, Edge(t, a).value, n - 1, b);
      k := j + 1;
    }
  }

  /** A new edge f -> o closes a cycle exactly when o already led to f. */
  lemma NewEdge(s: State, t: State, f: nat, o: nat)
    requires Edge(s, f).None? && Edge(t, f) == Some(o) && forall x: nat :: x != f ==> Edge(t, x) == Edge(s, x)
    ensures Deadlocked(t) <==> Deadlocked(s) || Reaches(s, o, f)
  {
    if Deadlocked(s) {
      var g: nat, n: nat :| n > 0 && Follow(s, g, n) == Some(g);
      PathKept(s, t, g, n, g);
    }
    if n: nat :| Follow(s, o, n) == Some(f) {
      PathKept(s, t, o, n, f);
      assert Follow(t, f, n + 1) == Some(f);
    }
    if Deadlocked(t) {
      var g: nat, n: nat :| n > 0 && Follow(t, g, n) == Some(g);
      var k := SplitAtNew(s, t, f, o, g, n, g);
      if Follow(s, g, n) != Some(g) {
        var j := SplitAtNew(s, t, f, o, o, n - k - 1, g);
        if Follow(s, o, n - k - 1) == Some(g) {
          Joined(s, o, n - k - 1, g, k, f);
        }
      }
    }
  }

  /** Handing a lock from one sink to another neither makes nor breaks a cycle. */
  lemma SameCycles(s: State, t: State, z: nat)
    requires Edge(s, z).None?
    requires forall x: nat :: Edge(s, x).Some? && Edge(s, x) != Some(z) ==> Edge(t, x) == Edge(s, x)
    ensures Deadlocked(s) ==> Deadlocked(t)
  {
    if Deadlocked(s) {
      var g: nat, n: nat :| n > 0 && Follow(s, g, n) == Some(g);
      SinkAvoided(s, t, z, g, n, g);
    }
  }

  lemma UnlockSameCycles(s: State, t: State, l: nat, u: nat)
    requires Inv(s) && s.L(l).owner == Some(u) && u !in s.waiting && t == Unlock(s, l)
    ensures Deadlocked(s) <==> Deadlocked(t)
  {
    var q := s.L(l).queue;
    assert LockOk(s, l) && forall x: nat :: FiberOk(s, x);
    assert forall m: nat :: m != l ==> t.L(m) == s.L(m);
    SameCycles(s, t, u);
    SameCycles(t, s, if q == [] then u else q[0]);
  }

  lemma NobodyWaits(s: State, l: nat)
    requires Inv(s) && s.L(l).owner.None?
    ensures forall x: nat :: x in s.waiting ==> s.waiting[x] != l
  {
    assert LockOk(s, l);
    forall x: nat | x in s.waiting ensures s.waiting[x] != l { assert FiberOk(s, x); }
  }

  lemma AcquireDeadlocks(s: State, t: State, f: nat, l: nat)
    requires Inv(s) && Next(s, Acquire(f, l)) == Some(t)
    ensures Deadlocked(t) <==> Deadlocked(s) || LeadsTo(s, l, f)
  {
    assert forall m: nat :: m != l ==> t.L(m) == s.L(m);
    hide Deadlocked;
    assert LockOk(s, l);
    if s.L(l).owner.Some? {
      assert Edge(t, f) == s.L(l).owner;
      NewEdge(s, t, f, s.L(l).owner.value);
    } else {
      NobodyWaits(s, l);
      SameEdges(s, t);
    }
  }

  /** One step: a deadlock appears exactly when a blocking lock() is called on a chain that leads back to the caller. */
  lemma DeadlockStep(s: State, t: State, a: Action)
    requires Inv(s) && Next(s, a) == Some(t)
    ensures Deadlocked(t) <==> Deadlocked(s) || (a.Acquire? && LeadsTo(s, a.l, a.f))
  {
    hide Deadlocked, LeadsTo;
    match a {
      case Acquire(f, l) => AcquireDeadlocks(s, t, f, l);
      case Return(f) =>
        var r := s.(woken := s.woken - {f});
        SameLocksKeepInv(s, r);
        InvAt(s, s.woken[f], f);
        SameEdges(s, r);
        if f in s.wounded { UnlockSameCycles(r, t, s.woken[f], f); }
      case Release(f, l) => UnlockSameCycles(s, t, l, f);
      case TryAcquire(_, l) =>
        assert forall m: nat :: m != l ==> t.L(m) == s.L(m);
        if s.L(l).owner.None? { NobodyWaits(s, l); }
        SameEdges(s, t);
      case Begin(_, _) => SameEdges(s, t);
      case Clear(_) => SameEdges(s, t);
    }
  }

  lemma SameEdges(s: State, t: State)
    requires forall x: nat :: Edge(s, x) == Edge(t, x)
    ensures Deadlocked(s) <==> Deadlocked(t)
  {
    if Deadlocked(s) {
      var g: nat, n: nat :| n > 0 && Follow(s, g, n) == Some(g);
      PathKept(s, t, g, n, g);
    }
    if Deadlocked(t) {
      var g: nat, n: nat :| n > 0 && Follow(t, g, n) == Some(g);
      PathKept(t, s, g, n, g);
    }
  }

  /**
   The header promises that no deadlock is possible.  Exactly: a run is free of
   deadlock if and only if no lock() in it was called on a lock whose chain of
   waiting owners led back to the caller.  A deadlock, once there, stays.
   */
  lemma {:induction false} DeadlockFreeIff(states: seq<State>, actions: seq<Action>, i: nat)
    requires IsRun(states, actions) && i < |states|
    ensures Deadlocked(states[i]) <==>
              exists j :: 0 <= j < i && actions[j].Acquire? && LeadsTo(states[j], actions[j].l, actions[j].f)
  {
    if i > 0 {
      DeadlockFreeIff(states, actions, i - 1);
      RunKeepsInv(states, actions, i - 1);
      DeadlockStep(states[i - 1], states[i], actions[i - 1]);
    }
  }

  // ----------------------------------------------------- what a deadlock contains

  /** A path whose end is not older than its start has an edge to one not older. */
  lemma {:induction false} Inversion(s: State, a: nat, n: nat, b: nat) returns (x: nat, k: nat)
    requires n > 0 && Follow(s, a, n) == Some(b) && s.Ts(a) <= s.Ts(b)
    ensures k < n && Follow(s, a, k) == Some(x) && Edge(s, x).Some? && s.Ts(x) <= s.Ts(Edge(s, x).value)
    decreases n
  {
    var y := Edge(s, a).value;
    if s.Ts(a) <= s.Ts(y) {
      x, k := a, 0;
    } else {
      var j;
      x, j := Inversion(s, y, n - 1, b);
      k := j + 1;
    }
  }

  /** At step j fiber f queued for a lock that o held; if f was the older, o was wounded. */
  ghost predicate MetHolder(states: seq<State>, actions: seq<Action>, j: nat, f: nat, o: nat)
    requires |states| == |actions| + 1 && j < |actions|
  {
    var s, t := states[j], states[j + 1];
    && actions[j].Acquire? && actions[j].f == f && s.L(actions[j].l).owner == Some(o)
    && (t.Ts(f) < t.Ts(o) ==> o in t.wounded)
  }

  /** A lock is handed to o with f queued behind it. */
  ghost predicate PassedOver(s: State, t: State, f: nat, o: nat) {
    exists l: nat :: HandedPast(s, t, l, f, o)
  }

  ghost predicate HandedPast(s: State, t: State, l: nat, f: nat, o: nat) {
    var q := s.L(l).queue;
    && q != [] && q[0] == o && f in q[1..]
    && t.L(l).owner == Some(o) && t.L(l).queue == q[1..]
  }

  /** How the wait of f for o came about, both keeping their timestamps since. */
  ghost predicate Origin(states: seq<State>, actions: seq<Action>, i: nat, j: nat, f: nat, o: nat)
    requires |states| == |actions| + 1 && i < |states|
  {
    && j < i
    && (MetHolder(states, actions, j, f, o) || PassedOver(states[j], states[j + 1], f, o))
    && states[j + 1].Ts(f) == states[i].Ts(f) && states[j + 1].Ts(o) == states[i].Ts(o)
  }

  /** A step leaves a wait with its timestamps, or it is the step that made it. */
  lemma EdgeStep(s: State, t: State, a: Action, f: nat)
    requires Inv(s) && Inv(t) && Next(s, a) == Some(t) && Edge(t, f).Some?
    ensures var o := Edge(t, f).value;
      || (Edge(s, f) == Some(o) && t.Ts(f) == s.Ts(f) && t.Ts(o) == s.Ts(o))
      || (a.Acquire? && a.f == f && s.L(a.l).owner == Some(o) && (t.Ts(f) < t.Ts(o) ==> o in t.wounded))
      || PassedOver(s, t, f, o)
  {
    var l, o := t.waiting[f], Edge(t, f).value;
    InvAt(t, l, f);
    InvAt(s, l, f);
    match a {
      case Begin(g, _) =>
        assert s.L(l).owner == Some(o);
      case Clear(_) =>
      case Acquire(g, m) =>
        InvAt(s, m, g);
        hide Inv;
        AcquireEdge(s, t, g, m, f);
      case TryAcquire(_, _) =>
      case Return(g) =>
        InvAt(s, s.woken[g], g);
        if g in s.wounded {
          UnlockEdge(s.(woken := s.woken - {g}), t, s.woken[g], f, s);
        }
      case Release(_, m) =>
        UnlockEdge(s, t, m, f, s);
    }
  }

  lemma AcquireEdge(s: State, t: State, g: nat, m: nat, f: nat)
    requires Next(s, Acquire(g, m)) == Some(t) && Edge(t, f).Some? && LockOk(s, m) && FiberOk(s, f)
    requires LockOk(s, t.waiting[f])
    ensures var o := Edge(t, f).value;
      || (Edge(s, f) == Some(o) && t.Ts(f) == s.Ts(f) && t.Ts(o) == s.Ts(o))
      || (g == f && s.L(m).owner == Some(o) && (t.Ts(f) < t.Ts(o) ==> o in t.wounded))
  {
  }

  lemma UnlockEdge(r: State, t: State, m: nat, f: nat, s: State)
    requires t == Unlock(r, m) && r.locks == s.locks && r.waiting == s.waiting && r.ts == s.ts
    requires Edge(t, f).Some? && LockOk(s, m) && FiberOk(t, f)
    ensures var o := Edge(t, f).value;
      (Edge(s, f) == Some(o) && t.ts == s.ts) || HandedPast(s, t, m, f, o)
  {
    var l := t.waiting[f];
    if l != m {
      assert t.L(l) == s.L(l);
    }
  }

  lemma {:induction false} EdgeOrigin(states: seq<State>, actions: seq<Action>, i: nat, f: nat) returns (j: nat)
    requires IsRun(states, actions) && i < |states| && Edge(states[i], f).Some?
    ensures Origin(states, actions, i, j, f, Edge(states[i], f).value)
  {
    hide Inv, Next;
    assert i > 0;
    RunKeepsInv(states, actions, i - 1);
    RunKeepsInv(states, actions, i);
    var s, t, o := states[i - 1], states[i], Edge(states[i], f).value;
    EdgeStep(s, t, actions[i - 1], f);
    if Edge(s, f) == Some(o) && t.Ts(f) == s.Ts(f) && t.Ts(o) == s.Ts(o) {
      j := EdgeOrigin(states, actions, i - 1, f);
    } else {
      j := i - 1;
    }
  }

  /**
   What wound-wait misses: in every deadlock of every run some fiber x waits for
   one not older than itself, and that one either held the lock when x queued,
   and was wounded then if it was younger, or was handed the lock ahead of x.
   */
  lemma DeadlockContains(states: seq<State>, actions: seq<Action>, i: nat, f: nat, n: nat) returns (x: nat, k: nat, j: nat)
    requires IsRun(states, actions) && i < |states| && n > 0 && Follow(states[i], f, n) == Some(f)
    ensures k < n && Follow(states[i], f, k) == Some(x) && Edge(states[i], x).Some?
    ensures states[i].Ts(x) <= states[i].Ts(Edge(states[i], x).value)
    ensures Origin(states, actions, i, j, x, Edge(states[i], x).value)
  {
    x, k := Inversion(states[i], f, n, f);
    j := EdgeOrigin(states, actions, i, x);
  }

  /**
   Wound-wait does not break the cycle by itself: the younger fiber 2 parks on a
   lock of the older fiber 1 and is wounded only afterwards, while parked.
   */
  lemma WoundedYetDeadlocked() returns (states: seq<State>, actions: seq<Action>)
    ensures IsRun(states, actions)
    ensures var end := states[|states| - 1];
            && 2 in end.wounded && end.Ts(1) < end.Ts(2)
            && end.waiting.Keys == {1, 2} && end.woken == map[]
            && Deadlocked(end)
  {
    actions := [Begin(1, 100), Begin(2, 200), Acquire(1, 10), Acquire(2, 20), Acquire(2, 10), Acquire(1, 20)];
    var ts := map[1 := 100, 2 := 200];
    var a, b := Lock(Some(1), 100, []), Lock(Some(2), 200, []);
    var s1 := State(map[], {}, map[1 := 100], map[], map[]);
    var s2 := State(map[], {}, ts, map[], map[]);
    var s3 := State(map[10 := a], {}, ts, map[], map[]);
    var s4 := State(map[10 := a, 20 := b], {}, ts, map[], map[]);
    var s5 := State(map[10 := a.(queue := [2]), 20 := b], {}, ts, map[2 := 10], map[]);
    var s6 := State(map[10 := a.(queue := [2]), 20 := b.(queue := [1])], {2}, ts, map[2 := 10, 1 := 20], map[]);
    states := [Start, s1, s2, s3, s4, s5, s6];
    hide Next, Deadlocked;
    BothBegin(s1, s2);
    BothAcquire(s2, s3, s4, a, b);
    ParksAlive(s4, s5, a, b);
    ParksWounding(s5, s6, a, b);
    assert IsRun(states, actions);
    CycleOfTwo(s6, a, b);
  }

  lemma BothBegin(s: State, t: State)
    requires s == State(map[], {}, map[1 := 100], map[], map[]) && t == State(map[], {}, map[1 := 100, 2 := 200], map[], map[])
    ensures Next(Start, Begin(1, 100)) == Some(s) && Next(s, Begin(2, 200)) == Some(t)
  {
  }

  lemma BothAcquire(s: State, t: State, u: State, a: Lock, b: Lock)
    requires a == Lock(Some(1), 100, []) && b == Lock(Some(2), 200, [])
    requires s == State(map[], {}, map[1 := 100, 2 := 200], map[], map[])
    requires t == State(map[10 := a], {}, map[1 := 100, 2 := 200], map[], map[])
    requires u == State(map[10 := a, 20 := b], {}, map[1 := 100, 2 := 200], map[], map[])
    ensures Next(s, Acquire(1, 10)) == Some(t) && Next(t, Acquire(2, 20)) == Some(u)
  {
    assert s.wounded - {1} == {} && t.wounded - {2} == {};
  }

  lemma ParksAlive(s: State, t: State, a: Lock, b: Lock)
    requires a == Lock(Some(1), 100, []) && b == Lock(Some(2), 200, [])
    requires s == State(map[10 := a, 20 := b], {}, map[1 := 100, 2 := 200], map[], map[])
    requires t == State(map[10 := a.(queue := [2]), 20 := b], {}, map[1 := 100, 2 := 200], map[2 := 10], map[])
    ensures Next(s, Acquire(2, 10)) == Some(t)
  {
    assert [] + [2] == [2] && s.locks[10 := a.(queue := [2])] == t.locks;
    assert Next(s, Acquire(2, 10)).value.wounded == {};
  }

  lemma ParksWounding(s: State, t: State, a: Lock, b: Lock)
    requires a == Lock(Some(1), 100, []) && b == Lock(Some(2), 200, [])
    requires s == State(map[10 := a.(queue := [2]), 20 := b], {}, map[1 := 100, 2 := 200], map[2 := 10], map[])
    requires t == State(map[10 := a.(queue := [2]), 20 := b.(queue := [1])], {2}, map[1 := 100, 2 := 200],
                        map[2 := 10, 1 := 20], map[])
    ensures Next(s, Acquire(1, 20)) == Some(t)
  {
    assert [] + [1] == [1] && s.locks[20 := b.(queue := [1])] == t.locks;
    assert Next(s, Acquire(1, 20)).value.wounded == {2};
  }

  lemma CycleOfTwo(s: State, a: Lock, b: Lock)
    requires a == Lock(Some(1), 100, []) && b == Lock(Some(2), 200, [])
    requires s == State(map[10 := a.(queue := [2]), 20 := b.(queue := [1])], {2}, map[1 := 100, 2 := 200],
                        map[2 := 10, 1 := 20], map[])
    ensures Deadlocked(s)
  {
    assert Edge(s, 1) == Some(2) && Edge(s, 2) == Some(1);
    assert Follow(s, 2, 1) == Some(1) && Follow(s, 1, 2) == Some(1);
  }
}
