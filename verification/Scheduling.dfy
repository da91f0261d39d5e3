/**
 The state of one psiber scheduler and its strands, and what every suspension,
 wake-up and scheduling decision does to it.  A step runs from one suspension
 point of a fiber to the next.
 */
module Scheduling {
  import opened Common

  datatype Status = Ready | Running | Blocked | Sleeping | Parked | Recyclable

  /** home is the strand a fiber is bound to; entering the one it will bind to when it resumes. */
  datatype Fiber = Fiber(status: Status, home: Option<nat>, entering: Option<nat>, priority: nat) {
    function Bound(): Option<nat> { if entering.Some? then entering else home }
    predicate Runnable() { status.Ready? || status.Running? }
  }

  datatype Strand = Strand(active: Option<nat>, queue: seq<nat>)

  datatype State = State(
    fibers: map<nat, Fiber>,       // a pooled fiber when absent
    strands: map<nat, Strand>,     // empty when absent
    current: Option<nat>,
    lifo: Option<nat>,
    lifoRun: nat,                  // LIFO picks in a row
    high: seq<nat>, normal: seq<nat>, low: seq<nat>,
    wakes: seq<nat>,               // the wake list, newest first
    awaiting: set<nat>)            // fibers that asked for a wake not yet routed
  {
    function F(f: nat): Fiber { if f in fibers then fibers[f] else Fiber(Recyclable, None, None, 1) }
    function S(st: nat): Strand { if st in strands then strands[st] else Strand(None, []) }
    function Put(f: nat, x: Fiber): State { this.(fibers := fibers[f := x]) }
    function PutStrand(st: nat, x: Strand): State { this.(strands := strands[st := x]) }
  }

  /** How many of the running slot, the LIFO slot and the ready queues hold f. */
  ghost function Count(v: State, f: nat): nat {
    (if v.current == Some(f) then 1 else 0) + (if v.lifo == Some(f) then 1 else 0)
    + multiset(v.high)[f] + multiset(v.normal)[f] + multiset(v.low)[f]
  }

  // ------------------------------------------------------------- the pieces

  function Queued(v: State, f: nat): State {
    match v.F(f).priority
    case 0 => v.(high := v.high + [f])
    case 1 => v.(normal := v.normal + [f])
    case _ => v.(low := v.low + [f])
  }

  /** Sets the state to Ready and appends to the queue of the fiber's priority. */
  function MakeReady(v: State, f: nat): State {
    Queued(v.Put(f, v.F(f).(status := Ready)), f)
  }

  /** The waiters left once finished fibers at the front are skipped. */
  function SkipFinished(v: State, queue: seq<nat>): seq<nat> {
    if queue != [] && v.F(queue[0]).status.Recyclable? then SkipFinished(v, queue[1..]) else queue
  }

  /** strand::release, and the promotion of the fiber it returns. */
  function Release(v: State, st: nat): State {
    var q := SkipFinished(v, v.S(st).queue);
    if q == [] then v.PutStrand(st, Strand(None, []))
    else MakeReady(v.PutStrand(st, Strand(Some(q[0]), q[1..])), q[0])
  }

  /** strand::enqueue of a fiber that is coming back from a suspension. */
  function Reenter(v: State, f: nat, st: nat): State {
    if v.S(st).active.None? then MakeReady(v.PutStrand(st, v.S(st).(active := Some(f))), f)
    else v.PutStrand(st, v.S(st).(queue := v.S(st).queue + [f])).Put(f, v.F(f).(status := Parked))
  }

  /** Where a fiber goes once what it waited for has happened. */
  function Route(v: State, f: nat): State {
    match v.F(f).home
    case Some(st) => Reenter(v, f, st)
    case None => MakeReady(v, f)
  }

  function Reverse(s: seq<nat>): seq<nat> {
    if s == [] then [] else Reverse(s[1..]) + [s[0]]
  }

  /** A fiber on the wake list that is not parked is dropped. */
  function RouteWoken(v: State, f: nat): State {
    if !v.F(f).status.Parked? then v else Route(v, f).(awaiting := v.awaiting - {f})
  }

  function RouteAll(v: State, batch: seq<nat>): State
    decreases batch
  {
    if batch == [] then v else RouteAll(RouteWoken(v, batch[0]), batch[1..])
  }

  // -------------------------------------------------------------- the steps

  /** spawnFiber: a pooled fiber starts over, unbound. */
  function Spawn(v: State, f: nat, priority: nat): Option<State> {
    if v.F(f).status.Recyclable? then Some(MakeReady(v.Put(f, Fiber(Ready, None, None, priority)), f)) else None
  }

  /** The LIFO slot while its run is short, else the first fiber of the best non-empty queue. */
  function Pick(v: State): (State, Option<nat>) {
    if v.lifo.Some? && v.lifoRun < 3 then (v.(lifo := None, lifoRun := v.lifoRun + 1), v.lifo)
    else PopReady((if v.lifo.Some? then Queued(v, v.lifo.value) else v).(lifo := None, lifoRun := 0))
  }

  function PopReady(v: State): (State, Option<nat>) {
    if v.high != [] then (v.(high := v.high[1..]), Some(v.high[0]))
    else if v.normal != [] then (v.(normal := v.normal[1..]), Some(v.normal[0]))
    else if v.low != [] then (v.(low := v.low[1..]), Some(v.low[0]))
    else (v, None)
  }

  /** The pick after polling found the queues empty before. */
  function PickAfterPoll(v: State): (State, Option<nat>) {
    if v.lifo.Some? then (v.(lifo := None, lifoRun := 1), v.lifo) else PopReady(v)
  }

  /** A picked fiber runs; one that was entering a strand is bound to it first thing. */
  function Resume(v: State, f: nat): State {
    var x := v.F(f);
    v.(current := Some(f)).Put(f, x.(status := Running, home := x.Bound(), entering := None))
  }

  /** The current fiber suspends as status; the run loop releases its strand if it was active there. */
  function Suspend(v: State, status: Status): Option<State> {
    if v.current.None? || status.Ready? || status.Running? || (status.Parked? <==> v.current.value !in v.awaiting) then None
    else
      var f := v.current.value;
      var x := v.F(f);
      var off := v.(current := None).Put(f, x.(status := status));
      Some(if x.home.Some? && v.S(x.home.value).active == Some(f) then Release(off, x.home.value) else off)
  }

  /** The current fiber gives up its strand and keeps running unbound. */
  function Leave(v: State): Option<State> {
    if v.current.None? || v.F(v.current.value).home.None? || v.current.value in v.awaiting then None
    else
      var f := v.current.value;
      Some(Release(v.Put(f, v.F(f).(home := None)), v.F(f).home.value))
  }

  /** strand::enter by an unbound running fiber: bound at once, or queued and parked. */
  function Enter(v: State, st: nat): Option<State> {
    if v.current.None? || v.F(v.current.value).home.Some? || v.current.value in v.awaiting then None
    else
      var f := v.current.value;
      var x := v.F(f);
      if v.S(st).active.None? then
        Some(v.PutStrand(st, v.S(st).(active := Some(f))).Put(f, x.(home := Some(st))))
      else
        Some(v.(current := None).PutStrand(st, v.S(st).(queue := v.S(st).queue + [f]))
              .Put(f, x.(status := Parked, entering := Some(st))))
  }

  /** The current fiber goes to the back of its ready queue. */
  function Requeue(v: State): Option<State> {
    if v.current.None? || v.current.value in v.awaiting then None
    else Some(MakeReady(v.(current := None), v.current.value))
  }

  /** yieldCurrentFiber: a bound fiber releases its strand and enters it again at the tail. */
  function Yield(v: State): Option<State> {
    if v.current.None? || v.current.value in v.awaiting then None
    else
      var f := v.current.value;
      var home := v.F(f).home;
      if home.Some? && v.S(home.value).active == Some(f) then
        var left := Leave(v);
        if left.None? then None else
        var back := Enter(left.value, home.value);
        if back.None? || back.value.current.None? then back else Requeue(back.value)
      else Requeue(v)
  }

  /** The current fiber hands out the right to wake it, as it does before it parks. */
  function Register(v: State): Option<State> {
    if v.current.None? || v.current.value in v.awaiting then None
    else Some(v.(awaiting := v.awaiting + {v.current.value}))
  }

  /** wake(): any thread, once per registration, before or after the fiber has parked. */
  function Wake(v: State, f: nat): Option<State> {
    if f in v.awaiting && f !in v.wakes then Some(v.(wakes := [f] + v.wakes)) else None
  }

  /** drainWakeList, from the run loop. */
  function Drain(v: State): Option<State> {
    if v.current.Some? then None
    else
      var batch, w := Reverse(v.wakes), v.(wakes := []);
      if |batch| == 1 && v.lifo.None? && v.F(batch[0]).home.None? then
        var f := batch[0];
        if !v.F(f).status.Parked? then Some(w)
        else Some(w.(lifo := Some(f), awaiting := v.awaiting - {f}).Put(f, v.F(f).(status := Ready)))
      else Some(RouteAll(w, batch))
  }

  /** A timer or an fd is due: resumeBlockedFiber. */
  function Unblock(v: State, f: nat): Option<State> {
    if v.current.None? && (v.F(f).status.Blocked? || v.F(f).status.Sleeping?) then Some(Route(v, f)) else None
  }

  /** The timer and event loops of pollAndUnblock over the fibers that are due. */
  function UnblockAll(v: State, due: seq<nat>): State
    decreases due
  {
    if due == [] then v
    else
      var x := v.F(due[0]);
      UnblockAll(if x.status.Blocked? || x.status.Sleeping? then Route(v, due[0]) else v, due[1..])
  }

  function Schedule(v: State, polled: bool): Option<State> {
    if v.current.Some? then None
    else
      var (w, picked) := if polled then PickAfterPoll(v) else Pick(v);
      Some(if picked.Some? then Resume(w, picked.value) else w)
  }

  // ---------------------------------------------------------- the invariant

  ghost predicate FiberOk(v: State, f: nat) {
    var x := v.F(f);
    // runnable fibers sit in exactly one runnable place, all others in none
    && Count(v, f) == (if x.Runnable() then 1 else 0)
    && (v.current == Some(f) <==> x.status.Running?)
    // a runnable bound fiber is the active one of its strand
    && (x.Runnable() && x.Bound().Some? ==> v.S(x.Bound().value).active == Some(f))
    && (x.entering.Some? ==> x.status.Ready? || x.status.Parked?)
    // a parked fiber waits for its wake or for its strand, never both and never neither
    && (f in v.awaiting ==> x.status.Running? || (x.status.Parked? && x.entering.None?))
    && (x.status.Parked? && f !in v.awaiting ==> x.Bound().Some? && f in v.S(x.Bound().value).queue)
  }

  ghost predicate QueueOk(v: State, st: nat) {
    && NoDup(v.S(st).queue)
    && forall f: nat :: f in v.S(st).queue ==>
         v.F(f).status.Parked? && v.F(f).Bound() == Some(st) && f !in v.awaiting
  }

  ghost predicate StrandOk(v: State, st: nat) {
    && QueueOk(v, st)
    && (v.S(st).queue != [] ==> v.S(st).active.Some?)
    && (v.S(st).active.Some? ==> v.F(v.S(st).active.value).Runnable() && v.F(v.S(st).active.value).Bound() == Some(st))
  }

  ghost predicate WakesOk(v: State) {
    NoDup(v.wakes) && forall f: nat :: f in v.wakes ==> f in v.awaiting
  }

  ghost predicate Inv(v: State) {
    (forall f: nat :: FiberOk(v, f)) && (forall st: nat :: StrandOk(v, st)) && WakesOk(v)
  }

  lemma InvAt(v: State, f: nat, st: nat)
    requires Inv(v)
    ensures FiberOk(v, f) && StrandOk(v, st)
  {
  }

  /** Queueing has nothing to do with the LIFO slot. */
  lemma QueuedApart(v: State, f: nat)
    ensures Queued(v.(lifoRun := 0), f).(lifo := None) == Queued(v, f).(lifo := None, lifoRun := 0)
  {
  }

  /** Appending to a ready queue adds one place for that fiber. */
  lemma QueuedCount(v: State, f: nat)
    ensures forall g: nat :: Count(Queued(v, f), g) == Count(v, g) + (if g == f then 1 else 0)
  {
    var t := Queued(v, f);
    match v.F(f).priority {
      case 0 => assert multiset(t.high) == multiset(v.high) + multiset{f};
      case 1 => assert multiset(t.normal) == multiset(v.normal) + multiset{f};
      case _ => assert multiset(t.low) == multiset(v.low) + multiset{f};
    }
  }

  /** What making a fiber ready changes. */
  lemma MakeReadyFacts(v: State, f: nat)
    ensures var t := MakeReady(v, f);
            && t.F(f) == v.F(f).(status := Ready)
            && (forall g: nat :: g != f ==> t.F(g) == v.F(g))
            && (forall st: nat :: t.S(st) == v.S(st))
            && t.current == v.current && t.lifo == v.lifo && t.awaiting == v.awaiting && t.wakes == v.wakes
            && (forall g: nat :: Count(t, g) == Count(v, g) + (if g == f then 1 else 0))
  {
    var u := v.Put(f, v.F(f).(status := Ready));
    assert forall g: nat :: Count(u, g) == Count(v, g);
    QueuedCount(u, f);
  }

  /** All but the active fiber of strand st is in order, and no runnable fiber is bound to st. */
  ghost predicate Vacant(v: State, st: nat) {
    && (forall f: nat :: FiberOk(v, f)) && WakesOk(v)
    && (forall other: nat :: other != st ==> StrandOk(v, other))
    && QueueOk(v, st)
    && (forall f: nat :: v.F(f).Runnable() ==> v.F(f).Bound() != Some(st))
  }

  /** t is v except for fiber f, which is now x and has d more runnable places. */
  ghost predicate Only(v: State, t: State, f: nat, x: Fiber, d: int) {
    && t.F(f) == x && (forall g: nat :: g != f ==> t.F(g) == v.F(g))
    && (forall g: nat :: Count(t, g) == Count(v, g) + (if g == f then d else 0))
    && t.wakes == v.wakes
  }

  ghost predicate SameStrands(v: State, t: State) {
    forall st: nat :: t.S(st) == v.S(st)
  }

  ghost predicate OnlyStrand(v: State, t: State, st: nat, x: Strand) {
    t.S(st) == x && forall other: nat :: other != st ==> t.S(other) == v.S(other)
  }

  /** Releasing a vacated strand restores the invariant: its first waiter, if any, becomes active and ready. */
  lemma ReleaseKeeps(v: State, st: nat)
    requires Vacant(v, st)
    ensures Inv(Release(v, st))
  {
    var q, t := v.S(st).queue, Release(v, st);
    assert q != [] ==> q[0] in q;
    assert SkipFinished(v, q) == q;
    if q == [] {
      assert forall g: nat :: Count(t, g) == Count(v, g);
      Emptied(v, t, st);
    } else {
      var u := v.PutStrand(st, Strand(Some(q[0]), q[1..]));
      assert forall g: nat :: Count(u, g) == Count(v, g);
      MakeReadyFacts(u, q[0]);
      Promoted(v, t, st);
    }
  }

  lemma Emptied(v: State, t: State, st: nat)
    requires Vacant(v, st) && v.S(st).queue == [] && OnlyStrand(v, t, st, Strand(None, []))
    requires (forall g: nat :: t.F(g) == v.F(g) && Count(t, g) == Count(v, g))
    requires t.current == v.current && t.awaiting == v.awaiting && t.wakes == v.wakes
    ensures Inv(t)
  {
    hide Count;
    forall f: nat ensures FiberOk(t, f) { assert FiberOk(v, f); }
    forall other: nat ensures StrandOk(t, other) { assert other != st ==> StrandOk(v, other); }
  }

  lemma Promoted(v: State, t: State, st: nat)
    requires Vacant(v, st) && v.S(st).queue != []
    requires var n := v.S(st).queue[0];
             && OnlyStrand(v, t, st, Strand(Some(n), v.S(st).queue[1..]))
             && Only(v, t, n, v.F(n).(status := Ready), 1)
    requires t.current == v.current && t.awaiting == v.awaiting
    ensures Inv(t)
  {
    hide Count;
    var q := v.S(st).queue;
    assert q == [q[0]] + q[1..] && q[0] in q;
    forall f: nat ensures FiberOk(t, f) { assert FiberOk(v, f); }
    forall other: nat ensures StrandOk(t, other) { assert other != st ==> StrandOk(v, other); }
  }

  /** A fiber suspended on something other than a strand, and its wake already taken off the list. */
  ghost predicate ComesBack(v: State, f: nat) {
    && Inv(v) && v.current.None? && f !in v.wakes
    && (v.F(f).status.Blocked? || v.F(f).status.Sleeping? || (v.F(f).status.Parked? && f in v.awaiting))
  }

  lemma BackReady(v: State, t: State, f: nat)
    requires ComesBack(v, f) && Only(v, t, f, v.F(f).(status := Ready), 1)
    requires match v.F(f).home
             case None => SameStrands(v, t)
             case Some(st) => v.S(st).active.None? && OnlyStrand(v, t, st, v.S(st).(active := Some(f)))
    requires t.current == v.current && t.awaiting == v.awaiting - {f}
    ensures Inv(t)
  {
    hide Count;
    assert FiberOk(v, f);
    forall g: nat ensures FiberOk(t, g) { assert FiberOk(v, g); }
    forall st: nat ensures StrandOk(t, st) { assert StrandOk(v, st); }
  }

  lemma BackQueued(v: State, t: State, f: nat, st: nat)
    requires ComesBack(v, f) && v.F(f).home == Some(st) && v.S(st).active.Some?
    requires Only(v, t, f, v.F(f).(status := Parked), 0)
    requires OnlyStrand(v, t, st, v.S(st).(queue := v.S(st).queue + [f]))
    requires t.current == v.current && t.awaiting == v.awaiting - {f}
    ensures Inv(t)
  {
    hide Count;
    assert FiberOk(v, f) && StrandOk(v, st);
    assert f !in v.S(st).queue;
    forall g: nat ensures FiberOk(t, g) { assert FiberOk(v, g); }
    forall other: nat ensures StrandOk(t, other) { assert StrandOk(v, other); }
  }

  lemma RouteKeeps(v: State, t: State, f: nat)
    requires ComesBack(v, f) && t == Route(v, f).(awaiting := v.awaiting - {f})
    ensures Inv(t)
  {
    hide ComesBack, Count, MakeReady;
    match v.F(f).home {
      case None =>
        MakeReadyFacts(v, f);
        SameParts(MakeReady(v, f), t);
        BackReady(v, t, f);
      case Some(st) =>
        if v.S(st).active.None? {
          var u := v.PutStrand(st, v.S(st).(active := Some(f)));
          SameCount(v, u);
          MakeReadyFacts(u, f);
          SameParts(MakeReady(u, f), t);
          assert OnlyStrand(v, u, st, v.S(st).(active := Some(f)));
          BackReady(v, t, f);
        } else {
          SameCount(v, t);
          BackQueued(v, t, f, st);
        }
    }
  }

  lemma SameParts(v: State, t: State)
    requires t == v.(awaiting := t.awaiting)
    ensures forall g: nat :: t.F(g) == v.F(g) && t.S(g) == v.S(g) && Count(t, g) == Count(v, g)
  {
  }

  lemma SameCount(v: State, t: State)
    requires t.current == v.current && t.lifo == v.lifo && t.high == v.high && t.normal == v.normal && t.low == v.low
    ensures forall g: nat :: Count(t, g) == Count(v, g)
  {
  }

  // ---------------------------------------------- what each step keeps

  lemma SpawnKeeps(v: State, t: State, f: nat, priority: nat)
    requires Inv(v) && Spawn(v, f, priority) == Some(t)
    ensures Inv(t)
  {
    hide Count, MakeReady;
    var u := v.Put(f, Fiber(Ready, None, None, priority));
    SameCount(v, u);
    MakeReadyFacts(u, f);
    assert FiberOk(v, f);
    forall g: nat ensures FiberOk(t, g) { assert FiberOk(v, g); }
    forall st: nat ensures StrandOk(t, st) { assert StrandOk(v, st); }
  }

  /** A picked fiber keeps its one place, now the running slot. */
  lemma ResumeKeeps(v: State, t: State, f: nat)
    requires Inv(v) && v.current.None? && v.F(f).status.Ready?
    requires Only(v, t, f, v.F(f).(status := Running, home := v.F(f).Bound(), entering := None), 0)
    requires SameStrands(v, t) && t.current == Some(f) && t.awaiting == v.awaiting
    ensures Inv(t)
  {
    hide Count;
    assert FiberOk(v, f);
    forall g: nat ensures FiberOk(t, g) { assert FiberOk(v, g); }
    forall st: nat ensures StrandOk(t, st) { assert StrandOk(v, st); }
  }

  lemma PopHead(q: seq<nat>, g: nat)
    requires q != []
    ensures multiset(q)[g] == multiset(q[1..])[g] + (if q[0] == g then 1 else 0)
  {
    assert q == [q[0]] + q[1..];
  }

  /** Picking takes one place away from the fiber it returns, and finds one whenever there is any. */
  lemma PopReadyFacts(v: State)
    ensures var (w, picked) := PopReady(v);
            && w == v.(high := w.high, normal := w.normal, low := w.low)
            && (forall g: nat :: Count(v, g) == Count(w, g) + (if picked == Some(g) then 1 else 0))
            && (picked.None? ==> v.high == v.normal == v.low == [])
  {
    forall g: nat ensures var (w, picked) := PopReady(v); Count(v, g) == Count(w, g) + (if picked == Some(g) then 1 else 0) {
      PopReadyCount(v, g);
    }
  }

  lemma PopReadyCount(v: State, g: nat)
    ensures var (w, picked) := PopReady(v); Count(v, g) == Count(w, g) + (if picked == Some(g) then 1 else 0)
  {
    if v.high != [] { PopHead(v.high, g); }
    else if v.normal != [] { PopHead(v.normal, g); }
    else if v.low != [] { PopHead(v.low, g); }
  }

  /** A fiber moved from the LIFO slot to its queue keeps its one place. */
  lemma LifoQueued(v: State)
    ensures var u := (if v.lifo.Some? then Queued(v, v.lifo.value) else v).(lifo := None, lifoRun := 0);
            && u == v.(high := u.high, normal := u.normal, low := u.low, lifo := None, lifoRun := 0)
            && (forall g: nat :: Count(u, g) == Count(v, g))
            && (u.high == u.normal == u.low == [] ==> u.high == v.high && u.normal == v.normal && u.low == v.low && v.lifo.None?)
  {
    if v.lifo.Some? { QueuedCount(v, v.lifo.value); }
  }

  lemma PickFacts(v: State, polled: bool)
    ensures var (w, picked) := if polled then PickAfterPoll(v) else Pick(v);
            && w == v.(high := w.high, normal := w.normal, low := w.low, lifo := None, lifoRun := w.lifoRun)
            && (forall g: nat :: Count(v, g) == Count(w, g) + (if picked == Some(g) then 1 else 0))
            && (picked.None? ==> v.high == v.normal == v.low == [] && v.lifo.None?)
  {
    if v.lifo.Some? && (polled || v.lifoRun < 3) {
    } else if polled {
      PopReadyFacts(v);
    } else {
      LifoQueued(v);
      hide Count, PopReady, Queued;
      PopReadyFacts((if v.lifo.Some? then Queued(v, v.lifo.value) else v).(lifo := None, lifoRun := 0));
    }
  }

  lemma ScheduleKeeps(v: State, t: State, polled: bool)
    requires Inv(v) && Schedule(v, polled) == Some(t)
    ensures Inv(t)
    // the processor is left idle only when nothing is runnable
    ensures t.current.None? ==> forall f: nat :: !v.F(f).Runnable()
  {
    hide Inv, Pick, PickAfterPoll, Count, FiberOk;
    PickFacts(v, polled);
    var (w, picked) := if polled then PickAfterPoll(v) else Pick(v);
    if picked.Some? {
      var f := picked.value;
      PickedIsReady(v, w, f);
      ResumedCount(w, f);
      ResumeKeeps(v, t, f);
    } else {
      SameExceptPlaces(v, t);
      IdleMeansNothing(v);
    }
  }

  lemma PickedIsReady(v: State, w: State, f: nat)
    requires Inv(v) && v.current.None? && Count(v, f) == Count(w, f) + 1
    ensures v.F(f).status.Ready?
  {
    assert FiberOk(v, f);
  }

  lemma ResumedCount(w: State, f: nat)
    requires w.current.None?
    ensures forall g: nat :: Count(Resume(w, f), g) == Count(w, g) + (if g == f then 1 else 0)
  {
  }

  lemma IdleMeansNothing(v: State)
    requires Inv(v) && v.current.None? && v.lifo.None? && v.high == v.normal == v.low == []
    ensures forall f: nat :: !v.F(f).Runnable()
  {
    forall f: nat ensures !v.F(f).Runnable() { assert FiberOk(v, f); }
  }

  lemma SameExceptPlaces(v: State, t: State)
    requires Inv(v) && t.fibers == v.fibers && t.strands == v.strands && t.current == v.current
    requires t.wakes == v.wakes && t.awaiting == v.awaiting && forall g: nat :: Count(t, g) == Count(v, g)
    ensures Inv(t)
  {
    hide Count;
    forall g: nat ensures FiberOk(t, g) { assert FiberOk(v, g); }
    forall st: nat ensures StrandOk(t, st) { assert StrandOk(v, st); }
  }

  /** A fiber off its processor, or unbound, vacates its strand. */
  lemma Vacated(v: State, u: State, f: nat, st: nat)
    requires Inv(v) && v.current == Some(f) && v.F(f).home == Some(st)
    requires SameStrands(v, u) && u.awaiting == v.awaiting
    requires
      || (Only(v, u, f, v.F(f).(home := None), 0) && u.current == v.current && f !in v.awaiting)
      || (exists status: Status :: Only(v, u, f, v.F(f).(status := status), -1) && u.current.None?
            && !status.Ready? && !status.Running? && (status.Parked? <==> f in v.awaiting))
    ensures Vacant(u, st)
  {
    hide Count;
    assert FiberOk(v, f) && StrandOk(v, st);
    forall g: nat ensures FiberOk(u, g) && (u.F(g).Runnable() ==> u.F(g).Bound() != Some(st)) { assert FiberOk(v, g); }
    forall other: nat ensures QueueOk(u, other) && (other != st ==> StrandOk(u, other)) { assert StrandOk(v, other); }
  }

  lemma SuspendKeeps(v: State, t: State, status: Status)
    requires Inv(v) && Suspend(v, status) == Some(t)
    ensures Inv(t)
  {
    var f := v.current.value;
    var x := v.F(f);
    var off := v.(current := None).Put(f, x.(status := status));
    InvAt(v, f, if x.home.Some? then x.home.value else 0);
    assert Only(v, off, f, x.(status := status), -1);
    hide Count, Release;
    if x.home.Some? {
      Vacated(v, off, f, x.home.value);
      ReleaseKeeps(off, x.home.value);
    } else {
      forall g: nat ensures FiberOk(t, g) { assert FiberOk(v, g); }
      forall st: nat ensures StrandOk(t, st) { assert StrandOk(v, st); }
    }
  }

  lemma LeaveKeeps(v: State, t: State)
    requires Inv(v) && Leave(v) == Some(t)
    ensures Inv(t)
    ensures t.current == v.current && t.awaiting == v.awaiting && t.F(t.current.value) == v.F(t.current.value).(home := None)
  {
    var f := v.current.value;
    var st, u := v.F(f).home.value, v.Put(f, v.F(f).(home := None));
    InvAt(v, f, st);
    assert Only(v, u, f, v.F(f).(home := None), 0);
    Vacated(v, u, f, st);
    ReleaseKeeps(u, st);
    var q := v.S(st).queue;
    assert q != [] ==> q[0] in q;
    assert f !in q;
  }

  lemma EnterCount(v: State, t: State, st: nat)
    requires v.current.Some? && Enter(v, st) == Some(t)
    ensures forall g: nat :: Count(t, g) == Count(v, g) + (if v.current == Some(g) && t.current.None? then -1 else 0)
  {
  }

  lemma EnterKeeps(v: State, t: State, st: nat)
    requires Inv(v) && Enter(v, st) == Some(t)
    ensures Inv(t)
  {
    hide Count;
    var f := v.current.value;
    InvAt(v, f, st);
    EnterCount(v, t, st);
    assert f !in v.S(st).queue;
    EnterFibers(v, t, st);
    hide FiberOk;
    forall other: nat ensures StrandOk(t, other) { assert StrandOk(v, other); }
  }

  lemma EnterFibers(v: State, t: State, st: nat)
    requires Inv(v) && Enter(v, st) == Some(t) && v.current.value !in v.S(st).queue
    requires forall g: nat :: Count(t, g) == Count(v, g) + (if t.current.None? && v.current == Some(g) then -1 else 0)
    ensures forall g: nat :: FiberOk(t, g)
  {
    hide Count, StrandOk;
    forall g: nat ensures FiberOk(t, g) { assert FiberOk(v, g); }
  }

  lemma OffCount(v: State, f: nat)
    requires v.current == Some(f)
    ensures forall g: nat :: Count(v.(current := None), g) == Count(v, g) + (if g == f then -1 else 0)
  {
  }

  lemma RequeueKeeps(v: State, t: State)
    requires Inv(v) && Requeue(v) == Some(t)
    ensures Inv(t)
  {
    hide Count, MakeReady;
    var f := v.current.value;
    var u := v.(current := None);
    InvAt(v, f, 0);
    OffCount(v, f);
    MakeReadyFacts(u, f);
    forall g: nat ensures FiberOk(t, g) { assert FiberOk(v, g); }
    forall other: nat ensures StrandOk(t, other) { assert StrandOk(v, other); }
  }

  lemma YieldKeeps(v: State, t: State)
    requires Inv(v) && Yield(v) == Some(t)
    ensures Inv(t)
  {
    hide Inv, Leave, Enter, Requeue;
    var f := v.current.value;
    var home := v.F(f).home;
    if home.Some? && v.S(home.value).active == Some(f) {
      var left := Leave(v).value;
      LeaveKeeps(v, left);
      var back := Enter(left, home.value);
      EnterKeeps(left, back.value, home.value);
      if back.value.current.Some? { RequeueKeeps(back.value, t); }
    } else {
      RequeueKeeps(v, t);
    }
  }

  lemma DrainSingleKeeps(v: State, t: State, f: nat)
    requires ComesBack(v, f) && v.lifo.None? && v.F(f).home.None?
    requires t == v.(lifo := Some(f), awaiting := v.awaiting - {f}).Put(f, v.F(f).(status := Ready))
    ensures Inv(t)
  {
    assert forall g: nat :: Count(t, g) == Count(v, g) + (if g == f then 1 else 0);
    BackReady(v, t, f);
  }

  /** A woken fiber is always still parked when it is drained, so none is dropped. */
  lemma WokenIsParked(v: State, f: nat)
    requires Inv(v) && v.current.None? && f in v.awaiting
    ensures v.F(f).status.Parked?
  {
    assert FiberOk(v, f);
  }

  lemma {:induction false} RouteAllKeeps(v: State, batch: seq<nat>)
    requires Inv(v) && v.current.None? && v.wakes == [] && NoDup(batch)
    requires forall f: nat :: f in batch ==> f in v.awaiting
    ensures Inv(RouteAll(v, batch)) && RouteAll(v, batch).current.None? && RouteAll(v, batch).wakes == []
    // every fiber of the batch is routed: ready, or in its strand's queue
    ensures RouteAll(v, batch).awaiting == v.awaiting - (set f | f in batch)
    decreases batch
  {
    if batch != [] {
      var f, u := batch[0], RouteWoken(v, batch[0]);
      WokenIsParked(v, f);
      RouteKeeps(v, u, f);
      RouteFrame(v, f);
      assert forall g :: g in batch[1..] ==> g != f;
      RouteAllKeeps(u, batch[1..]);
      assert batch == [f] + batch[1..];
    }
  }

  lemma RouteFrame(v: State, f: nat)
    ensures Route(v, f).current == v.current && Route(v, f).wakes == v.wakes && Route(v, f).awaiting == v.awaiting
  {
  }

  lemma {:induction false} ReverseFacts(s: seq<nat>)
    ensures |Reverse(s)| == |s| && forall i :: 0 <= i < |s| ==> Reverse(s)[i] == s[|s| - 1 - i]
  {
    if s != [] { ReverseFacts(s[1..]); }
  }

  lemma DrainKeeps(v: State, t: State)
    requires Inv(v) && Drain(v) == Some(t)
    ensures Inv(t)
    ensures t.wakes == [] && t.awaiting == v.awaiting - (set f | f in v.wakes)
  {
    var batch, w := Reverse(v.wakes), v.(wakes := []);
    ReverseFacts(v.wakes);
    assert forall f :: f in batch <==> f in v.wakes by {
      forall f | f in v.wakes ensures f in batch {
        var i :| 0 <= i < |v.wakes| && v.wakes[i] == f;
        assert batch[|v.wakes| - 1 - i] == f;
      }
    }
    SameCount(v, w);
    SameExceptWakes(v, w);
    hide Inv, Count, RouteAll;
    if |batch| == 1 && v.lifo.None? && v.F(batch[0]).home.None? {
      var f := batch[0];
      assert f in v.wakes && (set g | g in v.wakes) == {f};
      WokenIsParked(w, f);
      DrainSingleKeeps(w, t, f);
    } else {
      RouteAllKeeps(w, batch);
    }
  }

  lemma SameExceptWakes(v: State, t: State)
    requires Inv(v) && t == v.(wakes := [])
    ensures Inv(t)
    ensures forall f: nat :: f in v.wakes ==> f in t.awaiting
  {
    SameCount(v, t);
    hide Count;
    forall g: nat ensures FiberOk(t, g) { assert FiberOk(v, g); }
    forall st: nat ensures StrandOk(t, st) { assert StrandOk(v, st); }
  }

  lemma UnblockKeeps(v: State, t: State, f: nat)
    requires Inv(v) && Unblock(v, f) == Some(t)
    ensures Inv(t)
  {
    InvAt(v, f, 0);
    RouteFrame(v, f);
    assert v.awaiting - {f} == v.awaiting;
    RouteKeeps(v, t, f);
  }

  lemma {:induction false} UnblockAllKeeps(v: State, due: seq<nat>)
    requires Inv(v) && v.current.None?
    ensures Inv(UnblockAll(v, due)) && UnblockAll(v, due).current.None?
    decreases due
  {
    if due != [] {
      var f := due[0];
      RouteFrame(v, f);
      if v.F(f).status.Blocked? || v.F(f).status.Sleeping? {
        UnblockKeeps(v, Route(v, f), f);
        UnblockAllKeeps(Route(v, f), due[1..]);
      } else {
        UnblockAllKeeps(v, due[1..]);
      }
    }
  }

  lemma RegisterKeeps(v: State, t: State)
    requires Inv(v) && (Register(v) == Some(t) || exists f: nat :: Wake(v, f) == Some(t))
    ensures Inv(t)
  {
    SameCount(v, t);
    hide Count;
    if v.current.Some? { assert FiberOk(v, v.current.value); }
    forall g: nat ensures FiberOk(t, g) { assert FiberOk(v, g); }
    forall st: nat ensures StrandOk(t, st) { assert StrandOk(v, st); }
  }

  // --------------------------------------------------------------- the runs

  datatype Action =
    | DoSpawn(f: nat, priority: nat) | DoSchedule(polled: bool)
    | DoSuspend(status: Status) | DoYield | DoLeave | DoEnter(st: nat)
    | DoRegister | DoWake(f: nat) | DoDrain | DoUnblock(f: nat)

  function Next(v: State, a: Action): Option<State> {
    match a
    case DoSpawn(f, priority) => Spawn(v, f, priority)
    case DoSchedule(polled) => Schedule(v, polled)
    case DoSuspend(status) => Suspend(v, status)
    case DoYield => Yield(v)
    case DoLeave => Leave(v)
    case DoEnter(st) => Enter(v, st)
    case DoRegister => Register(v)
    case DoWake(f) => Wake(v, f)
    case DoDrain => Drain(v)
    case DoUnblock(f) => Unblock(v, f)
  }

  const Start := State(map[], map[], None, None, 0, [], [], [], [], {})

  ghost predicate IsRun(states: seq<State>, actions: seq<Action>) {
    && |states| == |actions| + 1 && states[0] == Start
    && forall i :: 0 <= i < |actions| ==> Next(states[i], actions[i]) == Some(states[i + 1])
  }

  lemma StepKeepsInv(v: State, t: State, a: Action)
    requires Inv(v) && Next(v, a) == Some(t)
    ensures Inv(t)
  {
    hide Inv;
    match a {
      case DoSpawn(f, priority) => SpawnKeeps(v, t, f, priority);
      case DoSchedule(polled) => ScheduleKeeps(v, t, polled);
      case DoSuspend(status) => SuspendKeeps(v, t, status);
      case DoYield => YieldKeeps(v, t);
      case DoLeave => LeaveKeeps(v, t);
      case DoEnter(st) => EnterKeeps(v, t, st);
      case DoRegister => RegisterKeeps(v, t);
      case DoWake(f) => RegisterKeeps(v, t);
      case DoDrain => DrainKeeps(v, t);
      case DoUnblock(f) => UnblockKeeps(v, t, f);
    }
  }

  lemma {:induction false} RunKeepsInv(states: seq<State>, actions: seq<Action>, i: nat)
    requires IsRun(states, actions) && i < |states|
    ensures Inv(states[i])
  {
    if i > 0 {
      RunKeepsInv(states, actions, i - 1);
      StepKeepsInv(states[i - 1], states[i], actions[i - 1]);
    }
  }

  /** In every run a fiber sits in at most one runnable place or strand queue, and a ready fiber in one. */
  lemma OnePlace(states: seq<State>, actions: seq<Action>, i: nat, f: nat)
    requires IsRun(states, actions) && i < |states|
    ensures var v := states[i];
            && Count(v, f) <= 1 && (Count(v, f) == 1 <==> v.F(f).Runnable())
            && (forall st: nat :: f in v.S(st).queue ==> Count(v, f) == 0 && multiset(v.S(st).queue)[f] == 1)
            && (forall st: nat, other: nat :: f in v.S(st).queue && f in v.S(other).queue ==> st == other)
  {
    RunKeepsInv(states, actions, i);
    var v := states[i];
    InvAt(v, f, 0);
    hide Count;
    forall st: nat | f in v.S(st).queue
      ensures v.F(f).status.Parked? && v.F(f).Bound() == Some(st) && multiset(v.S(st).queue)[f] == 1
    {
      InvAt(v, f, st);
      OnceOnly(v.S(st).queue, f);
    }
  }

  lemma OnceOnly(q: seq<nat>, f: nat)
    requires NoDup(q) && f in q
    ensures multiset(q)[f] == 1
  {
    var i :| 0 <= i < |q| && q[i] == f;
    assert q == q[..i] + [f] + q[i + 1..];
    assert f !in q[..i] && f !in q[i + 1..];
  }

  /** In every run at most one fiber bound to a strand is runnable: the strand's active one. */
  lemma OneRunnablePerStrand(states: seq<State>, actions: seq<Action>, i: nat, f: nat, g: nat)
    requires IsRun(states, actions) && i < |states|
    ensures var v := states[i];
            v.F(f).Runnable() && v.F(g).Runnable() && v.F(f).Bound().Some? && v.F(f).Bound() == v.F(g).Bound() ==>
              f == g && v.S(v.F(f).Bound().value).active == Some(f)
  {
    RunKeepsInv(states, actions, i);
    InvAt(states[i], f, 0);
    InvAt(states[i], g, 0);
  }

  /** In every run, when nothing is runnable no strand has an active or a queued fiber. */
  lemma IdleStrandsAreEmpty(states: seq<State>, actions: seq<Action>, i: nat)
    requires IsRun(states, actions) && i < |states|
    requires states[i].current.None? && states[i].lifo.None? && states[i].high == states[i].normal == states[i].low == []
    ensures forall st: nat :: states[i].S(st) == Strand(None, [])
  {
    RunKeepsInv(states, actions, i);
    var v := states[i];
    forall st: nat ensures v.S(st) == Strand(None, []) {
      InvAt(v, 0, st);
      if v.S(st).active.Some? { InvAt(v, v.S(st).active.value, st); }
    }
  }
}
