/**
 What becomes of the fibers a poll or a drain of the wake list lets go on: none is
 left behind, and those that go to the same place get there in the order of
 their wakes.
 */
module WakeOrder {
  import opened Common
  import opened Scheduling
  import opened ReadyOrder
  import StrandOrder

  // ------------------------------------------------------------ none is left behind

  /** A fiber waits only for a processor or for its strand. */
  ghost predicate Settled(v: State, f: nat) {
    var x := v.F(f);
    || x.status.Ready?
    || (x.status.Parked? && x.home.Some? && f in v.S(x.home.value).queue)
  }

  lemma RouteSettles(v: State, f: nat)
    ensures Settled(Route(v, f), f)
    ensures forall g: nat :: g != f ==> Route(v, f).F(g) == v.F(g)
    ensures forall g: nat :: g != f && Settled(v, g) ==> Settled(Route(v, f), g)
    ensures Route(v, f).F(f) == v.F(f).(status := Route(v, f).F(f).status)
  {
    hide MakeReady, Count;
    match v.F(f).home {
      case None => MakeReadyFacts(v, f);
      case Some(st) =>
        if v.S(st).active.None? { MakeReadyFacts(v.PutStrand(st, v.S(st).(active := Some(f))), f); }
    }
  }

  predicate Suspended(x: Fiber) {
    x.status.Blocked? || x.status.Sleeping?
  }

  /** A poll leaves none of the fibers found due suspended, and touches no other. */
  lemma {:induction false} PollSettles(v: State, due: seq<nat>)
    ensures var t := UnblockAll(v, due);
      && (forall f: nat :: f in due ==> if Suspended(v.F(f)) then Settled(t, f) else t.F(f) == v.F(f))
      && (forall g: nat :: g !in due ==> t.F(g) == v.F(g))
      && (forall g: nat :: !Suspended(v.F(g)) && Settled(v, g) ==> Settled(t, g))
    decreases due
  {
    if due != [] {
      hide Route, Settled;
      var f := due[0];
      var u := if Suspended(v.F(f)) then Route(v, f) else v;
      RouteSettles(v, f);
      if Suspended(v.F(f)) { SettledIsNotSuspended(u, f); }
      PollSettles(u, due[1..]);
      forall g: nat ensures g in due <==> g == f || g in due[1..] { assert due == [f] + due[1..]; }
    }
  }

  lemma SettledIsNotSuspended(v: State, f: nat)
    requires Settled(v, f)
    ensures !Suspended(v.F(f))
  {
  }

  /** The fibers of a batch are parked and each is there once. */
  ghost predicate Batch(v: State, batch: seq<nat>) {
    NoDup(batch) && forall i :: 0 <= i < |batch| ==> v.F(batch[i]).status.Parked?
  }

  lemma {:induction false} BatchSettles(v: State, batch: seq<nat>)
    requires Batch(v, batch)
    ensures var t := RouteAll(v, batch);
      && (forall f: nat :: f in batch ==> Settled(t, f))
      && (forall g: nat :: g !in batch ==> t.F(g) == v.F(g))
      && (forall g: nat :: g !in batch && Settled(v, g) ==> Settled(t, g))
    decreases batch
  {
    if batch != [] {
      hide Route, Settled;
      var f := batch[0];
      var r, u := Route(v, f), RouteWoken(v, f);
      RouteSettles(v, f);
      assert u == r.(awaiting := u.awaiting);
      SettledSame(r, u);
      assert forall j :: 0 <= j < |batch| - 1 ==> batch[1..][j] == batch[j + 1] && batch[j + 1] != f;
      BatchSettles(u, batch[1..]);
      forall g: nat ensures g in batch <==> g == f || g in batch[1..] { assert batch == [f] + batch[1..]; }
    }
  }

  lemma SettledSame(v: State, t: State)
    requires t == v.(awaiting := t.awaiting)
    ensures forall g: nat :: t.F(g) == v.F(g) && (Settled(t, g) <==> Settled(v, g))
  {
    forall g: nat ensures t.F(g) == v.F(g) && (Settled(t, g) <==> Settled(v, g)) {
      assert forall st: nat :: t.S(st) == v.S(st);
    }
  }

  /** A drain leaves none of the fibers woken waiting for its wake, and touches no other. */
  lemma DrainSettles(v: State, t: State)
    requires Inv(v) && Drain(v) == Some(t)
    ensures forall f: nat :: f in v.wakes ==> Settled(t, f)
    ensures forall g: nat :: g !in v.wakes ==> t.F(g) == v.F(g)
  {
    hide Inv, RouteAll, Reverse;
    var batch, w := Reverse(v.wakes), v.(wakes := []);
    WakesParked(v);
    ReverseMembers(v.wakes);
    ReverseFacts(v.wakes);
    forall k, l | 0 <= k < l < |batch| ensures batch[k] != batch[l] {
      assert v.wakes[|batch| - 1 - l] != v.wakes[|batch| - 1 - k];
    }
    assert Batch(w, batch);
    if t == RouteAll(w, batch) {
      BatchSettles(w, batch);
    } else {
      assert batch == [batch[0]];
    }
  }

  lemma ReverseMembers(s: seq<nat>)
    ensures forall f: nat :: f in Reverse(s) <==> f in s
  {
    ReverseFacts(s);
    forall f: nat | f in s ensures f in Reverse(s) {
      var i :| 0 <= i < |s| && s[i] == f;
      assert Reverse(s)[|s| - 1 - i] == f;
    }
  }

  // ------------------------------------------------------------ in the order of wakes

  /** Where a fiber that goes on is put: the ready queue of its class, or its strand. */
  datatype Place = Ready(rank: nat) | On(strand: nat)

  function PlaceOf(v: State, f: nat): Place {
    match v.F(f).home
    case None => Place.Ready(Rank(v, f))
    case Some(st) => On(st)
  }

  /** Who is there, in the order in which they will run. */
  function Room(v: State, d: Place): seq<nat> {
    match d
    case Ready(c) => Line(v, c)
    case On(st) => (if v.S(st).active.Some? then [v.S(st).active.value] else []) + v.S(st).queue
  }

  ghost predicate Precedes(s: seq<nat>, f: nat, g: nat) {
    exists p, q :: 0 <= p < q < |s| && s[p] == f && s[q] == g
  }

  /** A strand without an active fiber has none queued. */
  ghost predicate Seated(v: State) {
    forall st: nat :: v.S(st).active.None? ==> v.S(st).queue == []
  }

  lemma SeatedSame(v: State, t: State)
    requires Seated(v) && t.strands == v.strands
    ensures Seated(t)
  {
    forall st: nat ensures t.S(st).active.None? ==> t.S(st).queue == [] { assert t.S(st) == v.S(st); }
  }

  lemma SeatedPut(v: State, st: nat, x: Strand)
    requires Seated(v) && x.active.Some?
    ensures Seated(v.PutStrand(st, x))
  {
    var t := v.PutStrand(st, x);
    forall other: nat ensures t.S(other).active.None? ==> t.S(other).queue == [] {
      assert other != st ==> t.S(other) == v.S(other);
    }
  }

  lemma RouteSeated(v: State, f: nat)
    requires Seated(v)
    ensures Seated(Route(v, f))
  {
    hide MakeReady, Seated;
    match v.F(f).home {
      case None =>
        StrandOrder.MakeReadyStrands(v, f);
        SeatedSame(v, Route(v, f));
      case Some(st) =>
        var u := v.PutStrand(st, if v.S(st).active.None? then v.S(st).(active := Some(f))
                                 else v.S(st).(queue := v.S(st).queue + [f]));
        SeatedPut(v, st, u.S(st));
        StrandOrder.MakeReadyStrands(u, f);
        SeatedSame(u, Route(v, f));
    }
  }

  lemma Grows(v: State, t: State, d: Place)
    requires Seated(v) && Adds(v, t) && StrandOrder.Behind(v, t) && (d.Ready? ==> d.rank < 3)
    ensures Room(v, d) <= Room(t, d)
  {
    if d.On? {
      var st := d.strand;
      if v.S(st).active.Some? {
        assert t.S(st).active == v.S(st).active && v.S(st).queue <= t.S(st).queue;
      }
    }
  }

  lemma RouteGrows(v: State, f: nat, d: Place)
    requires Seated(v) && (d.Ready? ==> d.rank < 3)
    ensures Room(v, d) <= Room(Route(v, f), d)
  {
    hide Route, Adds, Room;
    RouteAdds(v, f);
    StrandOrder.RouteBehind(v, f);
    Grows(v, Route(v, f), d);
  }

  /** A fiber that goes on is put last in its place. */
  lemma RoutePlaces(v: State, f: nat)
    requires Seated(v)
    ensures Room(Route(v, f), PlaceOf(v, f)) == Room(v, PlaceOf(v, f)) + [f]
  {
    match v.F(f).home {
      case None => MakeReadyLine(v, f);
      case Some(st) =>
        if v.S(st).active.None? {
          hide MakeReady;
          StrandOrder.MakeReadyStrands(v.PutStrand(st, v.S(st).(active := Some(f))), f);
        }
    }
  }

  lemma MakeReadyLine(v: State, f: nat)
    ensures Line(MakeReady(v, f), Rank(v, f)) == Line(v, Rank(v, f)) + [f]
  {
  }

  lemma SameRooms(v: State, t: State, d: Place)
    requires t == v.(awaiting := t.awaiting)
    ensures Room(t, d) == Room(v, d) && forall g: nat :: t.F(g) == v.F(g)
    ensures Seated(v) ==> Seated(t)
  {
    if Seated(v) { SeatedSame(v, t); }
  }

  /** What routing the first fiber of a batch does for the rest of it. */
  lemma BatchStep(v: State, batch: seq<nat>, d: Place)
    requires Seated(v) && batch != [] && Batch(v, batch) && (d.Ready? ==> d.rank < 3)
    ensures var u := RouteWoken(v, batch[0]);
      && Seated(u) && Batch(u, batch[1..]) && Room(v, d) <= Room(u, d)
      && (PlaceOf(v, batch[0]) == d ==> Room(u, d) == Room(v, d) + [batch[0]])
      && forall j :: 0 < j < |batch| ==> PlaceOf(u, batch[j]) == PlaceOf(v, batch[j])
  {
    hide Route, Room, Settled;
    var f := batch[0];
    var r, u := Route(v, f), RouteWoken(v, f);
    RouteSeated(v, f);
    RouteSettles(v, f);
    RouteGrows(v, f, d);
    RoutePlaces(v, f);
    SameRooms(r, u, d);
    forall j | 0 < j < |batch|
      ensures PlaceOf(u, batch[j]) == PlaceOf(v, batch[j]) && u.F(batch[j]).status.Parked?
    {
      assert batch[j] != f;
    }
    assert forall j :: 0 <= j < |batch| - 1 ==> batch[1..][j] == batch[j + 1];
  }

  /** Each fiber of a batch comes behind those that were there before. */
  lemma {:induction false} BatchPlaced(v: State, batch: seq<nat>, d: Place, j: nat) returns (q: nat)
    requires Seated(v) && Batch(v, batch) && (d.Ready? ==> d.rank < 3)
    requires j < |batch| && PlaceOf(v, batch[j]) == d
    ensures |Room(v, d)| <= q < |Room(RouteAll(v, batch), d)| && Room(RouteAll(v, batch), d)[q] == batch[j]
    decreases batch
  {
    hide Room, PlaceOf, RouteWoken;
    var u := RouteWoken(v, batch[0]);
    BatchStep(v, batch, d);
    if j == 0 {
      q := |Room(v, d)|;
      BatchGrows(u, batch[1..], d);
    } else {
      q := BatchPlaced(u, batch[1..], d, j - 1);
    }
  }

  lemma {:induction false} BatchGrows(v: State, batch: seq<nat>, d: Place)
    requires Seated(v) && Batch(v, batch) && (d.Ready? ==> d.rank < 3)
    ensures Room(v, d) <= Room(RouteAll(v, batch), d)
    decreases batch
  {
    hide Room, PlaceOf, RouteWoken;
    if batch != [] {
      BatchStep(v, batch, d);
      BatchGrows(RouteWoken(v, batch[0]), batch[1..], d);
    }
  }

  /** Of two fibers of a batch that go to the same place, the first gets there first. */
  lemma {:induction false} BatchInOrder(v: State, batch: seq<nat>, d: Place, i: nat, j: nat)
    requires Seated(v) && Batch(v, batch) && (d.Ready? ==> d.rank < 3)
    requires i < j < |batch| && PlaceOf(v, batch[i]) == PlaceOf(v, batch[j]) == d
    ensures Precedes(Room(RouteAll(v, batch), d), batch[i], batch[j])
    decreases batch
  {
    hide Room, PlaceOf, RouteWoken;
    var u := RouteWoken(v, batch[0]);
    BatchStep(v, batch, d);
    if i == 0 {
      BatchGrows(u, batch[1..], d);
      var q := BatchPlaced(u, batch[1..], d, j - 1);
      assert Room(RouteAll(v, batch), d)[|Room(v, d)|] == batch[0];
    } else {
      BatchInOrder(u, batch[1..], d, i - 1, j - 1);
    }
  }

  /** A drain routes the fibers of the wake list, whose head is the newest, oldest first. */
  lemma DrainInOrder(v: State, t: State, i: nat, j: nat)
    requires Inv(v) && Drain(v) == Some(t) && i < j < |v.wakes|
    requires PlaceOf(v, v.wakes[i]) == PlaceOf(v, v.wakes[j])
    ensures Precedes(Room(t, PlaceOf(v, v.wakes[i])), v.wakes[j], v.wakes[i])
  {
    hide Inv, Room, RouteAll, Reverse;
    var batch, w, n := Reverse(v.wakes), v.(wakes := []), |v.wakes|;
    ReverseFacts(v.wakes);
    WakesParked(v);
    forall k, l | 0 <= k < l < n ensures batch[k] != batch[l] { assert v.wakes[n - 1 - l] != v.wakes[n - 1 - k]; }
    assert Batch(w, batch);
    SeatedSame(v, w);
    assert forall f: nat :: PlaceOf(w, f) == PlaceOf(v, f);
    BatchInOrder(w, batch, PlaceOf(v, v.wakes[i]), n - 1 - j, n - 1 - i);
  }

  lemma WakesParked(v: State)
    requires Inv(v) && v.current.None?
    ensures Seated(v) && NoDup(v.wakes) && forall i :: 0 <= i < |v.wakes| ==> v.F(v.wakes[i]).status.Parked?
  {
    hide Count;
    forall st: nat ensures v.S(st).active.None? ==> v.S(st).queue == [] { InvAt(v, 0, st); }
    forall i | 0 <= i < |v.wakes| ensures v.F(v.wakes[i]).status.Parked? {
      assert v.wakes[i] in v.wakes;
      WokenIsParked(v, v.wakes[i]);
    }
  }

  /** A fiber that hands out the right to wake it can park, and can be woken before or after it has. */
  lemma RegisteredCanPark(v: State, t: State)
    requires Inv(v) && Register(v) == Some(t)
    ensures var f := v.current.value;
      && Wake(t, f).Some? && Suspend(t, Parked).Some?
      && Wake(Suspend(t, Parked).value, f).Some?
  {
    hide Inv;
    var f := v.current.value;
    RegisterKeeps(v, t);
    AwaitedOnly(v, f);
    SuspendWakes(t, Suspend(t, Parked).value, Parked);
    SuspendAwaits(t, Suspend(t, Parked).value, Parked);
  }

  lemma AwaitedOnly(v: State, f: nat)
    requires Inv(v)
    ensures f !in v.awaiting ==> f !in v.wakes
  {
  }

  lemma SuspendAwaits(v: State, t: State, status: Status)
    requires Suspend(v, status) == Some(t)
    ensures t.awaiting == v.awaiting
  {
    hide SkipFinished;
  }

  /** A fiber woken alone and bound to no strand goes through a free LIFO slot, and runs next unless the slot has won three times. */
  lemma LoneWakeRunsNext(v: State, t: State, u: State, f: nat)
    requires Inv(v) && v.wakes == [f] && v.lifo.None? && v.F(f).home.None?
    requires Drain(v) == Some(t) && Schedule(t, false) == Some(u)
    ensures t.lifo == Some(f) && forall c: nat :: c < 3 ==> Line(t, c) == Line(v, c)
    ensures v.lifoRun < 3 ==> u.current == Some(f)
  {
    WakesParked(v);
    ReverseFacts(v.wakes);
    assert Reverse(v.wakes)[0] == f;
  }

  /** In any other case a drain leaves the LIFO slot alone. */
  lemma DrainKeepsLifo(v: State, t: State)
    requires Drain(v) == Some(t) && (|v.wakes| != 1 || v.lifo.Some? || v.F(v.wakes[0]).home.Some?)
    ensures t.lifo == v.lifo
  {
    hide RouteAll, Reverse;
    ReverseFacts(v.wakes);
    RoutesKeepLifo(v.(wakes := []), Reverse(v.wakes));
  }

  lemma {:induction false} RoutesKeepLifo(v: State, batch: seq<nat>)
    ensures RouteAll(v, batch).lifo == v.lifo
    decreases batch
  {
    if batch != [] { RoutesKeepLifo(RouteWoken(v, batch[0]), batch[1..]); }
  }

  // ------------------------------------------------------------------ whole runs

  lemma MakeReadyWakes(v: State, f: nat)
    ensures MakeReady(v, f).wakes == v.wakes
  {
  }

  lemma ReleaseWakes(v: State, st: nat)
    ensures Release(v, st).wakes == v.wakes
  {
    hide MakeReady, SkipFinished;
    var q := SkipFinished(v, v.S(st).queue);
    if q != [] { MakeReadyWakes(v.PutStrand(st, Strand(Some(q[0]), q[1..])), q[0]); }
  }

  lemma LeaveWakes(v: State, t: State)
    requires Leave(v) == Some(t)
    ensures t.wakes == v.wakes
  {
    hide Release;
    ReleaseWakes(v.Put(v.current.value, v.F(v.current.value).(home := None)), v.F(v.current.value).home.value);
  }

  lemma SuspendWakes(v: State, t: State, status: Status)
    requires Suspend(v, status) == Some(t)
    ensures t.wakes == v.wakes
  {
    hide Release;
    var f := v.current.value;
    var x := v.F(f);
    if x.home.Some? { ReleaseWakes(v.(current := None).Put(f, x.(status := status)), x.home.value); }
  }

  lemma YieldWakes(v: State, t: State)
    requires Yield(v) == Some(t)
    ensures t.wakes == v.wakes
  {
    hide Leave, MakeReady;
    if Leave(v).Some? { LeaveWakes(v, Leave(v).value); }
    forall u: State, f: nat ensures MakeReady(u, f).wakes == u.wakes { MakeReadyWakes(u, f); }
  }

  lemma StepWakes(v: State, t: State, a: Action)
    requires Next(v, a) == Some(t) && !a.DoDrain?
    ensures t.wakes == if a.DoWake? then [a.f] + v.wakes else v.wakes
  {
    hide Leave, Yield, Suspend, MakeReady, Route;
    match a {
      case DoSpawn(f, priority) => MakeReadyWakes(v.Put(f, Fiber(Status.Ready, None, None, priority)), f);
      case DoSuspend(status) => SuspendWakes(v, t, status);
      case DoYield => YieldWakes(v, t);
      case DoLeave => LeaveWakes(v, t);
      case DoUnblock(f) => RouteFrame(v, f);
      case _ =>
    }
  }

  /** Between drains the wake list only grows, at its head. */
  lemma {:induction false} WakesGrow(states: seq<State>, actions: seq<Action>, m: nat, n: nat)
    requires IsRun(states, actions) && m <= n < |states| && forall k :: m <= k < n ==> !actions[k].DoDrain?
    ensures |states[m].wakes| <= |states[n].wakes|
    ensures states[n].wakes[|states[n].wakes| - |states[m].wakes|..] == states[m].wakes
    decreases n
  {
    hide Next;
    if m < n {
      WakesGrow(states, actions, m, n - 1);
      StepWakes(states[n - 1], states[n], actions[n - 1]);
    }
  }

  lemma WokenAt(states: seq<State>, actions: seq<Action>, a: nat, c: nat, f: nat)
    requires IsRun(states, actions) && a < c < |states| && actions[a] == DoWake(f)
    requires forall k :: a <= k < c ==> !actions[k].DoDrain?
    ensures var i := |states[c].wakes| - |states[a].wakes| - 1; 0 <= i && states[c].wakes[i] == f
  {
    hide Next;
    StepWakes(states[a], states[a + 1], actions[a]);
    WakesGrow(states, actions, a + 1, c);
  }

  /** Of two fibers woken before the same drain that go to the same place, the one woken first gets there first. */
  lemma WokenInOrder(states: seq<State>, actions: seq<Action>, a: nat, b: nat, c: nat, f: nat, g: nat)
    requires IsRun(states, actions) && a < b < c < |actions|
    requires actions[a] == DoWake(f) && actions[b] == DoWake(g) && actions[c] == DoDrain
    requires forall k :: a <= k < c ==> !actions[k].DoDrain?
    requires PlaceOf(states[c], f) == PlaceOf(states[c], g)
    ensures Precedes(Room(states[c + 1], PlaceOf(states[c], f)), f, g)
  {
    hide Inv, Room, Next, PlaceOf, Precedes;
    WokenAt(states, actions, a, c, f);
    WokenAt(states, actions, b, c, g);
    WakesMore(states, actions, a, b);
    RunKeepsInv(states, actions, c);
    DrainStep(states[c], states[c + 1], actions[c]);
    var i, j := |states[c].wakes| - |states[b].wakes| - 1, |states[c].wakes| - |states[a].wakes| - 1;
    DrainInOrder(states[c], states[c + 1], i, j);
  }

  lemma WakesMore(states: seq<State>, actions: seq<Action>, a: nat, b: nat)
    requires IsRun(states, actions) && a < b < |states| && actions[a].DoWake? && forall k :: a <= k < b ==> !actions[k].DoDrain?
    ensures |states[a].wakes| < |states[b].wakes|
  {
    hide Next;
    StepWakes(states[a], states[a + 1], actions[a]);
    WakesGrow(states, actions, a + 1, b);
  }

  lemma DrainStep(v: State, t: State, a: Action)
    requires a.DoDrain? && Next(v, a) == Some(t)
    ensures Drain(v) == Some(t)
  {
  }
}
