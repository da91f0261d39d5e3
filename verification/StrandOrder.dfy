/**
 The order in which the fibers of a strand become active and run: first in,
 first out, whatever way a fiber comes to its strand.
 */
module StrandOrder {
  import opened Common
  import opened Scheduling
  import Fifo

  // ------------------------------------------------------------------ one step

  /** An occupied strand keeps its active fiber, and fibers are queued behind those queued. */
  ghost predicate Behind(v: State, t: State) {
    forall st: nat :: v.S(st).active.Some? ==> t.S(st).active == v.S(st).active && v.S(st).queue <= t.S(st).queue
  }

  lemma BehindTwice(v: State, u: State, t: State)
    requires Behind(v, u) && Behind(u, t)
    ensures Behind(v, t)
  {
    forall st: nat | v.S(st).active.Some?
      ensures t.S(st).active == v.S(st).active && v.S(st).queue <= t.S(st).queue
    {
      assert u.S(st).active == v.S(st).active;
    }
  }

  lemma BehindSame(v: State, t: State)
    requires t.strands == v.strands
    ensures Behind(v, t)
  {
  }

  lemma RouteBehind(v: State, f: nat)
    ensures Behind(v, Route(v, f))
  {
    hide MakeReady;
    match v.F(f).home {
      case None => MakeReadyStrands(v, f);
      case Some(st) =>
        if v.S(st).active.None? { MakeReadyStrands(v.PutStrand(st, v.S(st).(active := Some(f))), f); }
    }
  }

  lemma MakeReadyStrands(v: State, f: nat)
    ensures MakeReady(v, f).strands == v.strands
  {
  }

  lemma {:induction false} RouteAllBehind(v: State, batch: seq<nat>)
    ensures Behind(v, RouteAll(v, batch))
    decreases batch
  {
    hide Route, Behind;
    if batch == [] {
      BehindSame(v, v);
    } else {
      var u := RouteWoken(v, batch[0]);
      RouteBehind(v, batch[0]);
      BehindSame(if v.F(batch[0]).status.Parked? then Route(v, batch[0]) else v, u);
      if v.F(batch[0]).status.Parked? { BehindTwice(v, Route(v, batch[0]), u); }
      RouteAllBehind(u, batch[1..]);
      BehindTwice(v, u, RouteAll(v, batch));
    }
  }

  lemma DrainBehind(v: State, t: State)
    requires Drain(v) == Some(t)
    ensures Behind(v, t)
  {
    hide Behind, RouteAll;
    var w := v.(wakes := []);
    BehindSame(v, w);
    RouteAllBehind(w, Reverse(v.wakes));
    BehindTwice(v, w, RouteAll(w, Reverse(v.wakes)));
    if t != RouteAll(w, Reverse(v.wakes)) { BehindSame(v, t); }
  }

  lemma ScheduleBehind(v: State, t: State, polled: bool)
    requires Schedule(v, polled) == Some(t)
    ensures Behind(v, t)
  {
    hide Pick, PickAfterPoll, Count;
    PickFacts(v, polled);
    BehindSame(v, t);
  }

  /** Strand st goes from its active fiber to the first of its queue; the other strands are left alone. */
  ghost predicate HandsOn(v: State, t: State, st: nat) {
    && t.S(st) == (if v.S(st).queue == [] then Strand(None, []) else Strand(Some(v.S(st).queue[0]), v.S(st).queue[1..]))
    && forall other: nat :: other != st ==> t.S(other) == v.S(other)
  }

  /** A release hands the strand to the fiber queued longest. */
  lemma ReleaseHandsOn(v: State, st: nat)
    requires QueueOk(v, st)
    ensures HandsOn(v, Release(v, st), st)
  {
    hide MakeReady;
    var q := v.S(st).queue;
    assert q != [] ==> q[0] in q;
    assert SkipFinished(v, q) == q;
    if q != [] { MakeReadyStrands(v.PutStrand(st, Strand(Some(q[0]), q[1..])), q[0]); }
  }

  /** A strand as a line: its active fiber is the one served. */
  function Line(v: State, st: nat): Fifo.Line {
    Fifo.Line(v.S(st).active, v.S(st).queue)
  }

  /** What any step does to a strand: its active fiber goes only by a step of its own, and the first queued takes its place. */
  ghost predicate Turn(v: State, t: State, st: nat) {
    && Fifo.Turn(Line(v, st), Line(t, st))
    && (t.S(st).active != v.S(st).active && v.S(st).active.Some? ==> v.current == v.S(st).active)
  }

  lemma BehindTurns(v: State, t: State, st: nat)
    requires Inv(v) && Behind(v, t)
    ensures Turn(v, t, st)
  {
    InvAt(v, 0, st);
    assert v.S(st).active.Some? ==> t.S(st).active == v.S(st).active && v.S(st).queue <= t.S(st).queue;
  }

  /** The current fiber was the active one of the strand that is handed on. */
  lemma HandsOnTurns(v: State, t: State, home: nat, st: nat)
    requires Inv(v) && HandsOn(v, t, home) && v.S(home).active.Some? && v.current == v.S(home).active
    ensures Turn(v, t, st)
  {
    InvAt(v, v.current.value, home);
    assert v.S(home).queue != [] ==> v.S(home).queue[0] in v.S(home).queue;
  }

  lemma HomeIsActive(v: State)
    requires Inv(v) && v.current.Some? && v.F(v.current.value).home.Some?
    ensures v.S(v.F(v.current.value).home.value).active == v.current
  {
    InvAt(v, v.current.value, 0);
  }

  lemma SuspendTurns(v: State, t: State, status: Status, st: nat)
    requires Inv(v) && Suspend(v, status) == Some(t)
    ensures Turn(v, t, st)
  {
    var f := v.current.value;
    var x := v.F(f);
    var off := v.(current := None).Put(f, x.(status := status));
    hide Release, Turn, Inv;
    if x.home.Some? {
      HomeIsActive(v);
      OffQueueOk(v, off, f, x.home.value);
      ReleaseHandsOn(off, x.home.value);
      HandsOnSame(v, off, t, x.home.value);
      HandsOnTurns(v, t, x.home.value, st);
    } else {
      BehindSame(v, t);
      BehindTurns(v, t, st);
    }
  }

  /** A fiber that suspends is as it asked to be, the one that takes its place in its strand is ready, and no other changes. */
  lemma SuspendFibers(v: State, t: State, status: Status, g: nat)
    requires Inv(v) && Suspend(v, status) == Some(t)
    ensures t.current.None?
    ensures var f := v.current.value;
            var home := v.F(f).home;
            t.F(g) ==
              if g == f then v.F(f).(status := status)
              else if home.Some? && v.S(home.value).queue != [] && g == v.S(home.value).queue[0] then v.F(g).(status := Ready)
              else v.F(g)
  {
    var f := v.current.value;
    var x := v.F(f);
    var off := v.(current := None).Put(f, x.(status := status));
    if x.home.Some? {
      HomeIsActive(v);
      OffQueueOk(v, off, f, x.home.value);
      InvAt(v, f, x.home.value);
      var q := v.S(x.home.value).queue;
      assert off.S(x.home.value) == v.S(x.home.value);
      assert q != [] ==> q[0] in q && q[0] != f && off.F(q[0]).status.Parked?;
      hide MakeReady, Inv, Count;
      if q != [] { MakeReadyFacts(off.PutStrand(x.home.value, Strand(Some(q[0]), q[1..])), q[0]); }
    }
  }

  /** The current fiber is in no queue, so the queues are still in order when only it has changed. */
  lemma OffQueueOk(v: State, u: State, f: nat, st: nat)
    requires Inv(v) && v.current == Some(f) && u.strands == v.strands && u.awaiting == v.awaiting
    requires forall g: nat :: g != f ==> u.F(g) == v.F(g)
    ensures QueueOk(u, st)
  {
    InvAt(v, f, st);
    assert f !in v.S(st).queue;
  }

  lemma HandsOnSame(v: State, u: State, t: State, st: nat)
    requires u.strands == v.strands && HandsOn(u, t, st)
    ensures HandsOn(v, t, st)
  {
  }

  lemma LeaveHandsOn(v: State, t: State)
    requires Inv(v) && Leave(v) == Some(t)
    ensures HandsOn(v, t, v.F(v.current.value).home.value)
  {
    hide Release;
    var f := v.current.value;
    var u := v.Put(f, v.F(f).(home := None));
    OffQueueOk(v, u, f, v.F(f).home.value);
    ReleaseHandsOn(u, v.F(f).home.value);
    HandsOnSame(v, u, t, v.F(f).home.value);
  }

  /** A fiber that enters a strand is active there if the strand was free, and queued last otherwise. */
  lemma EnterLast(v: State, t: State, st: nat)
    requires Inv(v) && Enter(v, st) == Some(t)
    ensures Behind(v, t)
    ensures if v.S(st).active.None? then t.S(st) == Strand(v.current, []) && t.current == v.current
            else t.S(st) == Strand(v.S(st).active, v.S(st).queue + [v.current.value]) && t.current.None?
    ensures forall other: nat :: other != st ==> t.S(other) == v.S(other)
  {
    InvAt(v, 0, st);
  }

  lemma RequeueStrands(v: State, t: State)
    requires Requeue(v) == Some(t)
    ensures t.strands == v.strands
  {
  }

  lemma YieldDefined(v: State)
    requires Inv(v) && v.current.Some? && v.current.value !in v.awaiting
    ensures Yield(v).Some?
  {
    hide Inv;
    if v.F(v.current.value).home.Some? { LeaveKeeps(v, Leave(v).value); }
  }

  /** A bound fiber that yields goes behind everyone in its strand's queue, and the first of them becomes active. */
  lemma YieldTurns(v: State, t: State, st: nat)
    requires Inv(v) && Yield(v) == Some(t)
    ensures Turn(v, t, st)
    ensures v.F(v.current.value).home == Some(st) ==>
              var q := v.S(st).queue + [v.current.value]; t.S(st) == Strand(Some(q[0]), q[1..])
  {
    hide Inv, Leave, Enter, Requeue, Turn;
    var f := v.current.value;
    var home := v.F(f).home;
    if home.Some? {
      HomeIsActive(v);
      var left := Leave(v).value;
      LeaveHandsOn(v, left);
      LeaveKeeps(v, left);
      var back := Enter(left, home.value).value;
      EnterLast(left, back, home.value);
      if back.current.Some? { RequeueStrands(back, t); }
      YieldTurn(v, t, home.value, st);
    } else {
      RequeueStrands(v, t);
      BehindSame(v, t);
      BehindTurns(v, t, st);
    }
  }

  lemma YieldTurn(v: State, t: State, home: nat, st: nat)
    requires Inv(v) && v.current.Some? && v.S(home).active == v.current
    requires var q := v.S(home).queue + [v.current.value]; t.S(home) == Strand(Some(q[0]), q[1..])
    requires forall other: nat :: other != home ==> t.S(other) == v.S(other)
    ensures Turn(v, t, st)
  {
    var q := v.S(home).queue;
    InvAt(v, v.current.value, home);
    assert q != [] ==> q[0] in q && (q + [v.current.value])[1..] == q[1..] + [v.current.value];
  }

  lemma StepTurns(v: State, t: State, a: Action, st: nat)
    requires Inv(v) && Next(v, a) == Some(t)
    ensures Turn(v, t, st)
  {
    hide Inv, Turn, Behind, Suspend, Yield, Leave, Drain, Enter, Route, Schedule, MakeReady;
    match a {
      case DoSuspend(status) => SuspendTurns(v, t, status, st);
      case DoYield => YieldTurns(v, t, st);
      case DoLeave => LeaveTurns(v, t, st);
      case _ =>
        StepBehind(v, t, a);
        BehindTurns(v, t, st);
    }
  }

  lemma LeaveTurns(v: State, t: State, st: nat)
    requires Inv(v) && Leave(v) == Some(t)
    ensures Turn(v, t, st)
  {
    hide Inv, Turn;
    HomeIsActive(v);
    LeaveHandsOn(v, t);
    HandsOnTurns(v, t, v.F(v.current.value).home.value, st);
  }

  lemma StepBehind(v: State, t: State, a: Action)
    requires Inv(v) && Next(v, a) == Some(t) && !a.DoSuspend? && !a.DoYield? && !a.DoLeave?
    ensures Behind(v, t)
  {
    hide Inv, Behind, Drain, Enter, Route, Schedule, MakeReady;
    match a {
      case DoSpawn(f, priority) =>
        MakeReadyStrands(v.Put(f, Fiber(Ready, None, None, priority)), f);
        BehindSame(v, t);
      case DoSchedule(polled) => ScheduleBehind(v, t, polled);
      case DoEnter(st) => EnterLast(v, t, st);
      case DoRegister => BehindSame(v, t);
      case DoWake(f) => BehindSame(v, t);
      case DoDrain => DrainBehind(v, t);
      case DoUnblock(f) => RouteBehind(v, f);
    }
  }

  // ------------------------------------------------------------------ whole runs

  ghost predicate RanBetween(states: seq<State>, f: nat, m: nat, n: nat) {
    exists k :: m <= k < n && k < |states| && states[k].current == Some(f)
  }

  lemma RanLater(states: seq<State>, f: nat, m: nat, n: nat)
    requires RanBetween(states, f, m + 1, n)
    ensures RanBetween(states, f, m, n)
  {
  }

  /** An active fiber stays the active one until it has run. */
  lemma {:induction false} ActiveRuns(states: seq<State>, actions: seq<Action>, m: nat, n: nat, st: nat, f: nat)
    requires IsRun(states, actions) && m <= n < |states|
    requires states[m].S(st).active == Some(f) && states[n].S(st).active != Some(f)
    ensures RanBetween(states, f, m, n)
    decreases n - m
  {
    hide Inv, Next;
    RunKeepsInv(states, actions, m);
    StepTurns(states[m], states[m + 1], actions[m], st);
    if states[m + 1].S(st).active == Some(f) {
      ActiveRuns(states, actions, m + 1, n, st, f);
      RanLater(states, f, m, n);
    }
  }

  /** A strand through a run. */
  ghost function Lines(states: seq<State>, st: nat): seq<Fifo.Line> {
    seq(|states|, i requires 0 <= i < |states| => Line(states[i], st))
  }

  lemma LinesTurn(states: seq<State>, actions: seq<Action>, st: nat)
    requires IsRun(states, actions)
    ensures Fifo.Turns(Lines(states, st))
  {
    hide Inv, Next, Line;
    var lines := Lines(states, st);
    forall i | 0 <= i < |lines| - 1 ensures Fifo.Turn(lines[i], lines[i + 1]) {
      RunKeepsInv(states, actions, i);
      StepTurns(states[i], states[i + 1], actions[i], st);
    }
  }

  /** A fiber that was active in a strand where another now is has run. */
  lemma ServedRuns(states: seq<State>, actions: seq<Action>, m: nat, n: nat, st: nat, f: nat)
    requires IsRun(states, actions) && m <= n < |states| && Fifo.Served(Lines(states, st), f, m, n)
    requires states[n].S(st).active != Some(f)
    ensures RanBetween(states, f, m, n)
  {
    var k :| m < k < n && Lines(states, st)[k].head == Some(f);
    ActiveRuns(states, actions, k, n, st, f);
  }

  /**
   Whoever is not yet active in a strand, nor queued before fiber i of its queue,
   becomes active there only after that fiber has run.
   */
  lemma NoOvertaking(states: seq<State>, actions: seq<Action>, m: nat, n: nat, st: nat, i: nat, g: nat)
    requires IsRun(states, actions) && m <= n < |states| && i < |states[m].S(st).queue|
    requires states[m].S(st).active != Some(g) && g !in states[m].S(st).queue[..i + 1]
    requires states[n].S(st).active == Some(g)
    ensures RanBetween(states, states[m].S(st).queue[i], m, n)
  {
    hide Next;
    LinesTurn(states, actions, st);
    Fifo.NoOvertaking(Lines(states, st), m, n, i, g);
    assert states[m].S(st).queue[i] in states[m].S(st).queue[..i + 1];
    ServedRuns(states, actions, m, n, st, states[m].S(st).queue[i]);
  }

  /** Of two fibers in the queue of a strand, the one queued first has run before the other becomes active. */
  lemma StrandInOrder(states: seq<State>, actions: seq<Action>, m: nat, n: nat, st: nat, i: nat, j: nat)
    requires IsRun(states, actions) && m <= n < |states| && i < j < |states[m].S(st).queue|
    requires states[n].S(st).active == Some(states[m].S(st).queue[j])
    ensures RanBetween(states, states[m].S(st).queue[i], m, n)
  {
    var v := states[m];
    RunKeepsInv(states, actions, m);
    InvAt(v, 0, st);
    assert v.S(st).queue[j] in v.S(st).queue;
    NoOvertaking(states, actions, m, n, st, i, v.S(st).queue[j]);
  }

  ghost predicate ActiveBetween(states: seq<State>, st: nat, f: nat, m: nat, n: nat) {
    exists k :: m < k <= n && k < |states| && states[k].S(st).active == Some(f)
  }

  /** A fiber with i others before it in a strand's queue is active by the time the active fiber has changed i + 1 times. */
  lemma TurnComes(states: seq<State>, actions: seq<Action>, m: nat, n: nat, st: nat, i: nat)
    requires IsRun(states, actions) && m <= n < |states| && i < |states[m].S(st).queue|
    requires Fifo.Changes(Lines(states, st), m, n) > i
    ensures ActiveBetween(states, st, states[m].S(st).queue[i], m, n)
  {
    hide Next;
    LinesTurn(states, actions, st);
    Fifo.TurnComes(Lines(states, st), m, n, i);
    var k :| m < k < n + 1 && Lines(states, st)[k].head == Some(states[m].S(st).queue[i]);
    assert states[k].S(st).active == Some(states[m].S(st).queue[i]);
  }
}
