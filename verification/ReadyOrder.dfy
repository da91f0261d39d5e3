/**
 The order in which ready fibers run: by class of priority, first in first out
 within a class, the LIFO slot ahead of both for at most three picks in a row.
 */
module ReadyOrder {
  import opened Common
  import opened Scheduling

  /** The class of a priority: 0 is the most urgent. */
  function Class(priority: nat): nat {
    if priority < 2 then priority else 2
  }

  function Rank(v: State, f: nat): nat {
    Class(v.F(f).priority)
  }

  /** The ready queue of a class. */
  function Line(v: State, c: nat): seq<nat> {
    if c == 0 then v.high else if c == 1 then v.normal else v.low
  }

  /** Every queued fiber is in the queue of its class. */
  ghost predicate Classed(v: State) {
    forall c: nat, i: nat :: c < 3 && i < |Line(v, c)| ==> Rank(v, Line(v, c)[i]) == c
  }

  /** Fibers have been added behind those queued, each in the queue of its class, and no priority has changed. */
  ghost predicate Adds(v: State, t: State) {
    && (forall g: nat :: t.F(g).priority == v.F(g).priority)
    && (forall c: nat :: c < 3 ==> Line(v, c) <= Line(t, c))
    && (forall c: nat, i: nat :: c < 3 && |Line(v, c)| <= i < |Line(t, c)| ==> Rank(t, Line(t, c)[i]) == c)
  }

  lemma AddsNothing(v: State, t: State)
    requires t.high == v.high && t.normal == v.normal && t.low == v.low
    requires forall g: nat :: t.F(g).priority == v.F(g).priority
    ensures Adds(v, t)
  {
  }

  lemma AddsTwice(v: State, u: State, t: State)
    requires Adds(v, u) && Adds(u, t)
    ensures Adds(v, t)
  {
    forall c: nat, i: nat | c < 3 && |Line(v, c)| <= i < |Line(t, c)|
      ensures Rank(t, Line(t, c)[i]) == c
    {
      assert Line(u, c) <= Line(t, c);
      if i < |Line(u, c)| {
        assert Line(u, c)[i] == Line(t, c)[i] && Rank(u, Line(u, c)[i]) == c;
      }
    }
    forall c: nat | c < 3
      ensures Line(v, c) <= Line(t, c)
    {
      assert Line(v, c) <= Line(u, c) <= Line(t, c);
    }
  }

  lemma QueuedAdds(v: State, f: nat)
    ensures Adds(v, Queued(v, f))
  {
  }

  lemma MakeReadyAdds(v: State, f: nat)
    ensures Adds(v, MakeReady(v, f))
  {
    hide Queued, Adds;
    var u := v.Put(f, v.F(f).(status := Ready));
    AddsNothing(v, u);
    QueuedAdds(u, f);
    AddsTwice(v, u, MakeReady(v, f));
  }

  lemma ReleaseAdds(v: State, st: nat)
    ensures Adds(v, Release(v, st))
  {
    hide MakeReady, Adds, SkipFinished;
    var q := SkipFinished(v, v.S(st).queue);
    if q == [] {
      AddsNothing(v, Release(v, st));
    } else {
      var u := v.PutStrand(st, Strand(Some(q[0]), q[1..]));
      AddsNothing(v, u);
      MakeReadyAdds(u, q[0]);
      AddsTwice(v, u, Release(v, st));
    }
  }

  lemma RouteAdds(v: State, f: nat)
    ensures Adds(v, Route(v, f))
  {
    hide MakeReady, Adds;
    match v.F(f).home {
      case None => MakeReadyAdds(v, f);
      case Some(st) =>
        if v.S(st).active.None? {
          var u := v.PutStrand(st, v.S(st).(active := Some(f)));
          AddsNothing(v, u);
          MakeReadyAdds(u, f);
          AddsTwice(v, u, Route(v, f));
        } else {
          AddsNothing(v, Route(v, f));
        }
    }
  }

  lemma {:induction false} RouteAllAdds(v: State, batch: seq<nat>)
    ensures Adds(v, RouteAll(v, batch))
    decreases batch
  {
    hide Route, Adds;
    if batch == [] {
      AddsNothing(v, v);
    } else {
      var f := batch[0];
      var u := RouteWoken(v, f);
      if v.F(f).status.Parked? {
        RouteAdds(v, f);
        AddsNothing(Route(v, f), u);
        AddsTwice(v, Route(v, f), u);
      } else {
        AddsNothing(v, u);
      }
      RouteAllAdds(u, batch[1..]);
      AddsTwice(v, u, RouteAll(v, batch));
    }
  }

  lemma DrainAdds(v: State)
    requires Drain(v).Some?
    ensures Adds(v, Drain(v).value)
  {
    hide Adds, RouteAll;
    var w := v.(wakes := []);
    AddsNothing(v, w);
    RouteAllAdds(w, Reverse(v.wakes));
    AddsTwice(v, w, RouteAll(w, Reverse(v.wakes)));
    if Drain(v).value != RouteAll(w, Reverse(v.wakes)) {
      AddsNothing(v, Drain(v).value);
    }
  }

  lemma LeaveAdds(v: State)
    requires Leave(v).Some?
    ensures Adds(v, Leave(v).value)
  {
    hide Release, Adds;
    var f := v.current.value;
    var u := v.Put(f, v.F(f).(home := None));
    AddsNothing(v, u);
    ReleaseAdds(u, v.F(f).home.value);
    AddsTwice(v, u, Leave(v).value);
  }

  lemma RequeueAdds(v: State)
    requires Requeue(v).Some?
    ensures Adds(v, Requeue(v).value)
  {
    hide MakeReady, Adds;
    var u := v.(current := None);
    AddsNothing(v, u);
    MakeReadyAdds(u, v.current.value);
    AddsTwice(v, u, Requeue(v).value);
  }

  lemma YieldAdds(v: State)
    requires Yield(v).Some?
    ensures Adds(v, Yield(v).value)
  {
    hide Adds, Leave, Requeue;
    var f := v.current.value;
    var home := v.F(f).home;
    if home.Some? && v.S(home.value).active == Some(f) {
      LeaveAdds(v);
      var left := Leave(v).value;
      var back := Enter(left, home.value).value;
      AddsNothing(left, back);
      AddsTwice(v, left, back);
      if back.current.Some? {
        RequeueAdds(back);
        AddsTwice(v, back, Yield(v).value);
      }
    } else {
      RequeueAdds(v);
    }
  }

  lemma SuspendAdds(v: State, status: Status)
    requires Suspend(v, status).Some?
    ensures Adds(v, Suspend(v, status).value)
  {
    hide Release, Adds;
    var f := v.current.value;
    var x := v.F(f);
    var off := v.(current := None).Put(f, x.(status := status));
    AddsNothing(v, off);
    if x.home.Some? && v.S(x.home.value).active == Some(f) {
      ReleaseAdds(off, x.home.value);
      AddsTwice(v, off, Suspend(v, status).value);
    }
  }

  /** Every step but a spawn and a pick only adds to the queues. */
  lemma StepAdds(v: State, t: State, a: Action)
    requires Next(v, a) == Some(t) && !a.DoSpawn? && !a.DoSchedule?
    ensures Adds(v, t)
  {
    hide Adds, Suspend, Yield, Leave, Drain, Route;
    match a {
      case DoSuspend(status) => SuspendAdds(v, status);
      case DoYield => YieldAdds(v);
      case DoLeave => LeaveAdds(v);
      case DoEnter(st) => AddsNothing(v, t);
      case DoRegister => AddsNothing(v, t);
      case DoWake(f) => AddsNothing(v, t);
      case DoDrain => DrainAdds(v);
      case DoUnblock(f) => RouteAdds(v, f);
    }
  }

  // --------------------------------------------------------------- spawn and pick

  /** A fiber off the head of the queue of a class, all better ones being empty, or none with all empty. */
  ghost predicate Takes(u: State, t: State, p: Option<nat>) {
    if p.None? then forall c: nat :: c < 3 ==> Line(u, c) == [] && Line(t, c) == []
    else exists c: nat :: c < 3 && TakesFrom(u, t, p.value, c)
  }

  ghost predicate TakesFrom(u: State, t: State, f: nat, c: nat) {
    && Line(u, c) == [f] + Line(t, c)
    && (forall d: nat :: d < 3 && d != c ==> Line(t, d) == Line(u, d))
    && (forall d: nat :: d < c ==> Line(u, d) == [])
  }

  lemma PopTakes(u: State)
    ensures Takes(u, PopReady(u).0, PopReady(u).1)
  {
    var (t, p) := PopReady(u);
    if u.high != [] {
      assert TakesFrom(u, t, p.value, 0);
    } else if u.normal != [] {
      assert TakesFrom(u, t, p.value, 1);
    } else if u.low != [] {
      assert TakesFrom(u, t, p.value, 2);
    }
  }

  /** What a pick takes its fiber from, when it is not the LIFO slot: the queues, the LIFO fiber put behind. */
  function Picking(v: State, polled: bool): State {
    if polled || v.lifo.None? then v else Queued(v, v.lifo.value)
  }

  predicate PicksLifo(v: State, polled: bool) {
    v.lifo.Some? && (polled || v.lifoRun < 3)
  }

  /** A pick takes the LIFO fiber, or the first fiber of the best queue that is not empty. */
  lemma PickTakes(v: State, t: State, polled: bool)
    requires Schedule(v, polled) == Some(t)
    ensures PicksLifo(v, polled) ==> t.current == v.lifo && forall c: nat :: c < 3 ==> Line(t, c) == Line(v, c)
    ensures !PicksLifo(v, polled) ==> Adds(v, Picking(v, polled)) && Takes(Picking(v, polled), t, t.current)
    ensures forall g: nat :: t.F(g).priority == v.F(g).priority
    ensures !polled ==> t.lifoRun == if PicksLifo(v, polled) then v.lifoRun + 1 else 0
  {
    hide Queued, Adds, Takes, PopReady;
    if !PicksLifo(v, polled) {
      var u := Picking(v, polled);
      if polled || v.lifo.None? {
        AddsNothing(v, u);
      } else {
        QueuedAdds(v, v.lifo.value);
      }
      QueuedOnly(v, if v.lifo.Some? then v.lifo.value else 0);
      var w := if polled then v else u.(lifo := None, lifoRun := 0);
      PopTakes(w);
      PopOnly(w);
      TakesSame(w, u, PopReady(w).0, t, t.current);
    }
  }

  lemma QueuedOnly(v: State, f: nat)
    ensures var t := Queued(v, f);
      t.fibers == v.fibers && t.current == v.current
  {
  }

  lemma PopOnly(v: State)
    ensures var t := PopReady(v).0;
      t.fibers == v.fibers && t.current == v.current && t.lifoRun == v.lifoRun
  {
  }

  lemma TakesSame(u: State, u': State, t: State, t': State, p: Option<nat>)
    requires Takes(u, t, p)
    requires u.high == u'.high && u.normal == u'.normal && u.low == u'.low
    requires t.high == t'.high && t.normal == t'.normal && t.low == t'.low
    ensures Takes(u', t', p)
  {
    assert forall c: nat :: Line(u, c) == Line(u', c) && Line(t, c) == Line(t', c);
    if p.Some? {
      var c: nat :| c < 3 && TakesFrom(u, t, p.value, c);
      assert TakesFrom(u', t', p.value, c);
    } else {
      assert forall c: nat :: c < 3 ==> Line(u, c) == [] && Line(t, c) == [];
    }
  }

  lemma AddsKeepClassed(v: State, t: State)
    requires Classed(v) && Adds(v, t)
    ensures Classed(t)
  {
    forall c: nat, i: nat | c < 3 && i < |Line(t, c)|
      ensures Rank(t, Line(t, c)[i]) == c
    {
      assert Line(v, c) <= Line(t, c);
      if i < |Line(v, c)| {
        assert Rank(v, Line(v, c)[i]) == c;
      }
    }
  }

  lemma TakesKeepClassed(u: State, t: State, p: Option<nat>)
    requires Classed(u) && Takes(u, t, p) && forall g: nat :: t.F(g).priority == u.F(g).priority
    ensures Classed(t)
    ensures p.Some? ==> forall c: nat :: c < Rank(t, p.value) ==> Line(t, c) == []
  {
    if p.Some? {
      var c: nat :| c < 3 && TakesFrom(u, t, p.value, c);
      assert Line(u, c)[0] == p.value && Rank(u, p.value) == c;
      forall d: nat, i: nat | d < 3 && i < |Line(t, d)|
        ensures Rank(t, Line(t, d)[i]) == d
      {
        assert Line(t, d)[i] == if d == c then Line(u, d)[i + 1] else Line(u, d)[i];
        assert Rank(u, Line(t, d)[i]) == d;
      }
    } else {
      assert forall c: nat :: c < 3 ==> Line(t, c) == [];
    }
  }

  /** A queued fiber is ready, so a spawn, which takes a finished one, is of another. */
  lemma {:induction false} QueuedIsReady(v: State, c: nat, i: nat)
    requires Inv(v) && c < 3 && i < |Line(v, c)|
    ensures Count(v, Line(v, c)[i]) == 1 && v.F(Line(v, c)[i]).Runnable() && v.current != Some(Line(v, c)[i])
  {
    var f := Line(v, c)[i];
    InvAt(v, f, 0);
    assert f in multiset(Line(v, c));
  }

  lemma SpawnKeepsClassed(v: State, t: State, f: nat, priority: nat)
    requires Inv(v) && Classed(v) && Spawn(v, f, priority) == Some(t)
    ensures Classed(t) && forall c: nat :: c < 3 ==> Line(v, c) <= Line(t, c)
  {
    hide Adds, MakeReady, Inv, Count;
    var u := v.Put(f, Fiber(Ready, None, None, priority));
    forall c: nat, i: nat | c < 3 && i < |Line(u, c)|
      ensures Rank(u, Line(u, c)[i]) == c
    {
      QueuedIsReady(v, c, i);
      assert Rank(v, Line(v, c)[i]) == c;
    }
    MakeReadyAdds(u, f);
    AddsKeepClassed(u, t);
    AddedBehind(u, t);
  }

  /** A fiber is spawned with the priority asked for, ready, unbound and last in the queue of its class. */
  lemma SpawnQueues(v: State, t: State, f: nat, priority: nat)
    requires Spawn(v, f, priority) == Some(t)
    ensures t.F(f) == Fiber(Ready, None, None, priority) && forall g: nat :: g != f ==> t.F(g) == v.F(g)
    ensures forall c: nat :: c < 3 ==> Line(t, c) == Line(v, c) + if c == Class(priority) then [f] else []
  {
  }

  lemma AddedBehind(v: State, t: State)
    requires Adds(v, t)
    ensures forall c: nat :: c < 3 ==> Line(v, c) <= Line(t, c)
    ensures forall g: nat :: t.F(g).priority == v.F(g).priority
  {
  }

  lemma StepKeepsClassed(v: State, t: State, a: Action)
    requires Inv(v) && Classed(v) && Next(v, a) == Some(t)
    ensures Classed(t)
  {
    hide Adds, Inv, Classed, Spawn, Schedule, Takes, Suspend, Yield, Leave, Drain, Route;
    match a {
      case DoSpawn(f, priority) => SpawnKeepsClassed(v, t, f, priority);
      case DoSchedule(polled) => MostUrgent(v, t, polled);
      case _ =>
        StepAdds(v, t, a);
        AddsKeepClassed(v, t);
    }
  }

  /** Unless it comes from the LIFO slot, no fiber left waiting is more urgent than the one picked. */
  lemma MostUrgent(v: State, t: State, polled: bool)
    requires Classed(v) && Schedule(v, polled) == Some(t)
    ensures Classed(t)
    ensures t.current.Some? && !PicksLifo(v, polled) ==> forall c: nat :: c < Rank(t, t.current.value) ==> Line(t, c) == []
  {
    hide Adds, Takes, Schedule;
    PickTakes(v, t, polled);
    if PicksLifo(v, polled) {
      forall c: nat, i: nat | c < 3 && i < |Line(t, c)|
        ensures Rank(t, Line(t, c)[i]) == c
      {
        assert Rank(v, Line(v, c)[i]) == c;
      }
    } else {
      var u := Picking(v, polled);
      AddsKeepClassed(v, u);
      AddedBehind(v, u);
      TakesKeepClassed(u, t, t.current);
    }
  }

  /** In every run each queue holds only fibers of its class, and the LIFO slot wins at most three picks in a row. */
  lemma {:induction false} RunKeepsClassed(states: seq<State>, actions: seq<Action>, i: nat)
    requires IsRun(states, actions) && i < |states|
    ensures Classed(states[i]) && states[i].lifoRun <= 3
  {
    hide Inv, Next, Classed;
    if i == 0 {
      assert Classed(Start) by { StartClassed(); }
    } else {
      RunKeepsClassed(states, actions, i - 1);
      RunKeepsInv(states, actions, i - 1);
      StepKeepsClassed(states[i - 1], states[i], actions[i - 1]);
      LifoRunStep(states[i - 1], states[i], actions[i - 1]);
    }
  }

  lemma StartClassed()
    ensures Classed(Start)
  {
  }

  lemma LifoRunStep(v: State, t: State, a: Action)
    requires Next(v, a) == Some(t) && v.lifoRun <= 3
    ensures t.lifoRun <= 3
    ensures a.DoSchedule? || t.lifoRun == v.lifoRun
  {
    hide Release, MakeReady, RouteAll, Reverse;
    match a {
      case DoSpawn(f, priority) => LifoRunReady(v.Put(f, Fiber(Ready, None, None, priority)), f);
      case DoSchedule(polled) => LifoRunPick(v, t, polled);
      case DoSuspend(status) =>
        var f := v.current.value;
        var off := v.(current := None).Put(f, v.F(f).(status := status));
        if v.F(f).home.Some? { LifoRunRelease(off, v.F(f).home.value); }
      case DoYield => LifoRunYield(v, t);
      case DoLeave => LifoRunLeave(v, t);
      case DoDrain => LifoRunRoutes(v.(wakes := []), Reverse(v.wakes));
      case DoUnblock(f) => LifoRunRoute(v, f);
      case _ =>
    }
  }

  lemma LifoRunReady(v: State, f: nat)
    ensures MakeReady(v, f).lifoRun == v.lifoRun
  {
  }

  lemma LifoRunRelease(v: State, st: nat)
    ensures Release(v, st).lifoRun == v.lifoRun
  {
    hide MakeReady, SkipFinished;
    var q := SkipFinished(v, v.S(st).queue);
    if q != [] { LifoRunReady(v.PutStrand(st, Strand(Some(q[0]), q[1..])), q[0]); }
  }

  lemma LifoRunRoute(v: State, f: nat)
    ensures Route(v, f).lifoRun == v.lifoRun
  {
  }

  lemma LifoRunLeave(v: State, t: State)
    requires Leave(v) == Some(t)
    ensures t.lifoRun == v.lifoRun
  {
    hide Release;
    LifoRunRelease(v.Put(v.current.value, v.F(v.current.value).(home := None)), v.F(v.current.value).home.value);
  }

  lemma LifoRunYield(v: State, t: State)
    requires Yield(v) == Some(t)
    ensures t.lifoRun == v.lifoRun
  {
    hide Leave, MakeReady;
    if Leave(v).Some? { LifoRunLeave(v, Leave(v).value); }
    forall u: State, f: nat ensures MakeReady(u, f).lifoRun == u.lifoRun { LifoRunReady(u, f); }
  }

  lemma LifoRunPick(v: State, t: State, polled: bool)
    requires Schedule(v, polled) == Some(t) && v.lifoRun <= 3
    ensures t.lifoRun <= 3
  {
    hide Queued, PopReady;
    if polled {
      PopOnly(v);
    } else {
      PopOnly((if v.lifo.Some? then Queued(v, v.lifo.value) else v).(lifo := None, lifoRun := 0));
    }
  }

  lemma {:induction false} LifoRunRoutes(v: State, batch: seq<nat>)
    ensures RouteAll(v, batch).lifoRun == v.lifoRun
    decreases batch
  {
    if batch != [] {
      LifoRunRoutes(RouteWoken(v, batch[0]), batch[1..]);
    }
  }

  // -------------------------------------------------------------- first in, first out

  lemma PickStep(v: State, t: State, a: Action)
    requires a.DoSchedule? && Next(v, a) == Some(t)
    ensures Schedule(v, a.polled) == Some(t)
  {
  }

  lemma SpawnStep(v: State, t: State, a: Action)
    requires a.DoSpawn? && Next(v, a) == Some(t)
    ensures Spawn(v, a.f, a.priority) == Some(t)
  {
  }

  lemma DistinctPlaces(v: State, c: nat, i: nat, j: nat)
    requires Inv(v) && c < 3 && i < j < |Line(v, c)|
    ensures Line(v, c)[i] != Line(v, c)[j]
  {
    QueuedIsReady(v, c, i);
    var q := Line(v, c);
    assert q == q[..i] + [q[i]] + q[i + 1..];
    assert q[j] == q[i + 1..][j - i - 1];
  }

  /** A queue is added to, or loses its first fiber to the processor and may be added to. */
  lemma LineShift(v: State, t: State, a: Action, c: nat)
    requires Inv(v) && Classed(v) && Next(v, a) == Some(t) && c < 3
    ensures Line(v, c) <= Line(t, c) || (Line(v, c) != [] && t.current == Some(Line(v, c)[0]) && Line(v, c)[1..] <= Line(t, c))
  {
    hide Adds, Takes, Inv, Classed, Next, Spawn, Schedule;
    if a.DoSchedule? {
      var polled := a.polled;
      PickStep(v, t, a);
      PickTakes(v, t, polled);
      if !PicksLifo(v, polled) {
        AddedBehind(v, Picking(v, polled));
        TakesShift(Picking(v, polled), t, t.current, c);
        assert Line(v, c) <= Line(Picking(v, polled), c);
      }
    } else if a.DoSpawn? {
      SpawnStep(v, t, a);
      SpawnKeepsClassed(v, t, a.f, a.priority);
    } else {
      StepAdds(v, t, a);
      AddedBehind(v, t);
    }
  }

  lemma TakesShift(u: State, t: State, p: Option<nat>, c: nat)
    requires Takes(u, t, p) && c < 3
    ensures Line(t, c) == Line(u, c) || (Line(u, c) != [] && p == Some(Line(u, c)[0]) && Line(u, c)[1..] == Line(t, c))
  {
    if p.Some? {
      var d: nat :| d < 3 && TakesFrom(u, t, p.value, d);
      assert ([p.value] + Line(t, d))[1..] == Line(t, d);
    }
  }

  /** An index after a queue lost its first d fibers. */
  lemma Shifted(q: seq<nat>, r: seq<nat>, d: nat, i: nat)
    requires d <= i < |q| && q[d..] <= r
    ensures i - d < |r| && r[i - d] == q[i]
  {
    assert q[d..][i - d] == q[i];
  }

  /** Of two fibers in a queue the first runs first. */
  lemma {:induction false} RunsInOrder(states: seq<State>, actions: seq<Action>, m: nat, n: nat, c: nat, i: nat, j: nat)
    requires IsRun(states, actions) && m < n < |states| && c < 3 && i < j < |Line(states[m], c)|
    requires states[n].current == Some(Line(states[m], c)[j])
    ensures exists k :: m < k < n && states[k].current == Some(Line(states[m], c)[i])
    decreases n - m
  {
    hide Inv, Classed, Next, Line, Count;
    var v, t := states[m], states[m + 1];
    var q := Line(v, c);
    RunKeepsInv(states, actions, m);
    RunKeepsInv(states, actions, m + 1);
    RunKeepsClassed(states, actions, m);
    DistinctPlaces(v, c, i, j);
    LineShift(v, t, actions[m], c);
    if t.current == Some(q[i]) {
      assert m + 1 < n;
    } else {
      var d := if q <= Line(t, c) then 0 else 1;
      Shifted(q, Line(t, c), d, i);
      Shifted(q, Line(t, c), d, j);
      QueuedIsReady(t, c, j - d);
      RunsInOrder(states, actions, m + 1, n, c, i - d, j - d);
    }
  }

  // ------------------------------------------------------------------ bounded waiting

  /** The picks among the actions from m up to n. */
  function Picks(actions: seq<Action>, m: nat, n: nat): nat
    requires m <= n <= |actions|
    decreases n - m
  {
    if m == n then 0 else (if actions[m].DoSchedule? then 1 else 0) + Picks(actions, m + 1, n)
  }

  lemma TakesHead(u: State, t: State, p: Option<nat>)
    requires Takes(u, t, p) && Line(u, 0) != []
    ensures p == Some(Line(u, 0)[0]) && Line(u, 0)[1..] == Line(t, 0)
  {
    if p.Some? {
      var d: nat :| d < 3 && TakesFrom(u, t, p.value, d);
      assert d == 0;
      assert ([p.value] + Line(t, 0))[1..] == Line(t, 0);
    }
  }

  /** With a most urgent fiber queued, a pick takes the first of them, or the LIFO fiber for one of three times in a row. */
  lemma UrgentPick(v: State, t: State)
    requires Schedule(v, false) == Some(t) && Line(v, 0) != []
    ensures t.current.Some?
    ensures if PicksLifo(v, false) then Line(t, 0) == Line(v, 0) && t.lifoRun == v.lifoRun + 1 <= 3
            else t.current == Some(Line(v, 0)[0]) && Line(v, 0)[1..] <= Line(t, 0) && t.lifoRun == 0
  {
    hide Adds, Takes, Schedule;
    PickTakes(v, t, false);
    if !PicksLifo(v, false) {
      var u := Picking(v, false);
      AddedBehind(v, u);
      assert Line(v, 0) <= Line(u, 0);
      TakesHead(u, t, t.current);
    }
  }

  /** A fiber with i others before it in the most urgent queue runs within 4 * (i + 1) picks, if none follows a poll. */
  lemma {:induction false} BoundedWait(states: seq<State>, actions: seq<Action>, m: nat, n: nat, i: nat)
    requires IsRun(states, actions) && m <= n < |states| && i < |Line(states[m], 0)|
    requires forall k :: m <= k < n ==> actions[k] != DoSchedule(true)
    requires Picks(actions, m, n) + states[m].lifoRun >= 4 * (i + 1)
    ensures exists k :: m < k <= n && states[k].current == Some(Line(states[m], 0)[i])
    decreases n - m
  {
    hide Inv, Classed, Next, Schedule;
    RunKeepsClassed(states, actions, m);
    RunKeepsInv(states, actions, m);
    assert m < n;
    var v, t, a := states[m], states[m + 1], actions[m];
    var q := Line(v, 0);
    if a.DoSchedule? {
      PickStep(v, t, a);
      UrgentPick(v, t);
      if t.current != Some(q[i]) {
        var d := if PicksLifo(v, false) then 0 else 1;
        assert q[d..][i - d] == q[i];
        BoundedWait(states, actions, m + 1, n, i - d);
      }
    } else {
      LineShift(v, t, a, 0);
      LifoRunStep(v, t, a);
      if t.current != Some(q[i]) {
        var d := if q <= Line(t, 0) then 0 else 1;
        assert q[d..][i - d] == q[i];
        BoundedWait(states, actions, m + 1, n, i - d);
      }
    }
  }

  /** The run loop picks after a poll only when the pick before it found nothing. */
  ghost predicate PollsWhenIdle(states: seq<State>, actions: seq<Action>)
    requires |states| == |actions| + 1
  {
    forall k :: 0 <= k < |actions| && actions[k] == DoSchedule(true) ==> exists j :: IdleBefore(states, actions, j, k)
  }

  ghost predicate IdleBefore(states: seq<State>, actions: seq<Action>, j: int, k: nat)
    requires |states| == |actions| + 1 && k < |actions|
  {
    && 0 <= j < k && actions[j] == DoSchedule(false) && states[j + 1].current.None?
    && forall l :: j < l < k ==> !actions[l].DoSchedule?
  }

  ghost predicate RanBetween(states: seq<State>, f: nat, m: nat, n: nat) {
    exists k :: m < k <= n && k < |states| && states[k].current == Some(f)
  }

  /** Until it runs, a queued fiber stays in its queue and only moves up. */
  lemma {:induction false} StaysQueued(states: seq<State>, actions: seq<Action>, m: nat, n: nat, c: nat, i: nat)
    requires IsRun(states, actions) && m <= n < |states| && c < 3 && i < |Line(states[m], c)|
    requires !RanBetween(states, Line(states[m], c)[i], m, n)
    ensures exists i': nat :: i' <= i && i' < |Line(states[n], c)| && Line(states[n], c)[i'] == Line(states[m], c)[i]
    decreases n - m
  {
    hide Inv, Classed, Next;
    if m < n {
      var v, t := states[m], states[m + 1];
      var q := Line(v, c);
      RunKeepsInv(states, actions, m);
      RunKeepsClassed(states, actions, m);
      LineShift(v, t, actions[m], c);
      assert t.current != Some(q[i]);
      var d := if q <= Line(t, c) then 0 else 1;
      assert q[d..][i - d] == q[i];
      StaysQueued(states, actions, m + 1, n, c, i - d);
    }
  }

  lemma {:induction false} FirstPick(actions: seq<Action>, m: nat, n: nat) returns (p: nat)
    requires m <= n <= |actions| && Picks(actions, m, n) > 0
    ensures m <= p < n && actions[p].DoSchedule? && Picks(actions, p + 1, n) == Picks(actions, m, n) - 1
    decreases n - m
  {
    if actions[m].DoSchedule? {
      p := m;
    } else {
      p := FirstPick(actions, m + 1, n);
    }
  }

  /** While a most urgent fiber waits, only the first pick can follow a poll. */
  lemma NotPolled(states: seq<State>, actions: seq<Action>, m: nat, p: nat, k: nat, i: nat)
    requires IsRun(states, actions) && PollsWhenIdle(states, actions) && m <= p < k < |actions| && i < |Line(states[m], 0)|
    requires actions[p].DoSchedule? && !RanBetween(states, Line(states[m], 0)[i], m, k)
    ensures actions[k] != DoSchedule(true)
  {
    hide Next, Schedule;
    if actions[k] == DoSchedule(true) {
      var j :| IdleBefore(states, actions, j, k);
      assert j >= p;
      StaysQueued(states, actions, m, j, 0, i);
      PickStep(states[j], states[j + 1], actions[j]);
      UrgentPick(states[j], states[j + 1]);
    }
  }

  /** The pick before a poll found nothing, so the LIFO slot has won none since. */
  lemma IdleResets(states: seq<State>, actions: seq<Action>, k: nat)
    requires IsRun(states, actions) && PollsWhenIdle(states, actions) && k < |actions| && actions[k] == DoSchedule(true)
    ensures states[k].lifoRun == 0
  {
    hide Next, Schedule;
    var j :| IdleBefore(states, actions, j, k);
    PickStep(states[j], states[j + 1], actions[j]);
    IdlePick(states[j], states[j + 1]);
    SameLifoRun(states, actions, j + 1, k);
  }

  lemma IdlePick(v: State, t: State)
    requires Schedule(v, false) == Some(t) && t.current.None?
    ensures t.lifoRun == 0
  {
    hide Queued, PopReady;
    if !PicksLifo(v, false) {
      PopOnly((if v.lifo.Some? then Queued(v, v.lifo.value) else v).(lifo := None, lifoRun := 0));
    }
  }

  lemma {:induction false} SameLifoRun(states: seq<State>, actions: seq<Action>, m: nat, n: nat)
    requires IsRun(states, actions) && m <= n < |states| && forall l :: m <= l < n ==> !actions[l].DoSchedule?
    ensures states[n].lifoRun == states[m].lifoRun
    decreases n
  {
    hide Next;
    if m < n {
      SameLifoRun(states, actions, m, n - 1);
      RunKeepsClassed(states, actions, n - 1);
      LifoRunStep(states[n - 1], states[n], actions[n - 1]);
    }
  }

  /** A pick after a poll takes the LIFO fiber, counted as the first of a row, or the first of the most urgent. */
  lemma PolledPick(v: State, t: State)
    requires Schedule(v, true) == Some(t) && Line(v, 0) != []
    ensures if PicksLifo(v, true) then Line(t, 0) == Line(v, 0) && t.lifoRun == 1
            else t.current == Some(Line(v, 0)[0]) && Line(v, 0)[1..] == Line(t, 0) && t.lifoRun == v.lifoRun
  {
  }

  /** In a run of the loop, a fiber with i others before it in the most urgent queue runs within 4 * (i + 1) picks. */
  lemma UrgentRuns(states: seq<State>, actions: seq<Action>, m: nat, n: nat, i: nat)
    requires IsRun(states, actions) && PollsWhenIdle(states, actions)
    requires m <= n < |states| && i < |Line(states[m], 0)| && Picks(actions, m, n) >= 4 * (i + 1)
    ensures RanBetween(states, Line(states[m], 0)[i], m, n)
  {
    hide Next, Schedule;
    var f := Line(states[m], 0)[i];
    if !RanBetween(states, f, m, n) {
      var p := FirstPick(actions, m, n);
      StaysQueued(states, actions, m, p, 0, i);
      var i': nat :| i' <= i && i' < |Line(states[p], 0)| && Line(states[p], 0)[i'] == f;
      forall k | p < k < n
        ensures actions[k] != DoSchedule(true)
      {
        NotPolled(states, actions, m, p, k, i);
      }
      AfterFirstPick(states, actions, p, n, i');
      assert false;
    }
  }

  /** The same from the first pick on, when no other pick follows a poll. */
  lemma AfterFirstPick(states: seq<State>, actions: seq<Action>, p: nat, n: nat, i: nat)
    requires IsRun(states, actions) && PollsWhenIdle(states, actions) && p < n < |states| && i < |Line(states[p], 0)|
    requires actions[p].DoSchedule? && forall k :: p < k < n ==> actions[k] != DoSchedule(true)
    requires Picks(actions, p + 1, n) + 1 >= 4 * (i + 1)
    ensures RanBetween(states, Line(states[p], 0)[i], p, n)
  {
    hide Next, Schedule, Picks;
    var v, t, q := states[p], states[p + 1], Line(states[p], 0);
    PickStep(v, t, actions[p]);
    if actions[p].polled {
      IdleResets(states, actions, p);
      PolledPick(v, t);
    } else {
      UrgentPick(v, t);
    }
    if t.current != Some(q[i]) {
      var d := if PicksLifo(v, actions[p].polled) then 0 else 1;
      assert q[d..][i - d] == q[i];
      BoundedWait(states, actions, p + 1, n, i - d);
    }
  }

  /** How many of the last picks before state i went to the LIFO slot. */
  function LifoRow(states: seq<State>, actions: seq<Action>, i: nat): nat
    requires |states| == |actions| + 1 && i < |states|
  {
    if i == 0 then 0
    else if !actions[i - 1].DoSchedule? then LifoRow(states, actions, i - 1)
    else if PicksLifo(states[i - 1], actions[i - 1].polled) then LifoRow(states, actions, i - 1) + 1
    else 0
  }

  /** The LIFO slot wins at most three picks in a row, and the scheduler counts them. */
  lemma {:induction false} LifoAtMostThree(states: seq<State>, actions: seq<Action>, i: nat)
    requires IsRun(states, actions) && PollsWhenIdle(states, actions) && i < |states|
    ensures LifoRow(states, actions, i) == states[i].lifoRun <= 3
  {
    hide Next, Schedule;
    RunKeepsClassed(states, actions, i);
    if i > 0 {
      var v, t, a := states[i - 1], states[i], actions[i - 1];
      LifoAtMostThree(states, actions, i - 1);
      if a.DoSchedule? {
        if a.polled { IdleResets(states, actions, i - 1); }
        PickStep(v, t, a);
        LifoPickStep(v, t, a.polled);
      } else {
        LifoRunStep(v, t, a);
      }
    }
  }

  lemma LifoPickStep(v: State, t: State, polled: bool)
    requires Schedule(v, polled) == Some(t) && (polled ==> v.lifoRun == 0)
    ensures t.lifoRun == if PicksLifo(v, polled) then v.lifoRun + 1 else 0
  {
    hide Takes, Adds;
    if polled { PopOnly(v); } else { PickTakes(v, t, polled); }
  }
}
