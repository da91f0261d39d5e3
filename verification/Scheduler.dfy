/**
 The scheduler as it runs: fields updated in place by the run loop, the drain of
 the wake list, the poll and the strand operations.  Each method is proved to
 compute the step of the same name on the abstract state, whose runs keep the
 invariant Scheduling.Inv.
 */
module Scheduler {
  import opened Common
  import opened Scheduling
  import StrandOrder
  import WakeOrder

  class Scheduler {
    var fibers: map<nat, Fiber>
    var strands: map<nat, Strand>
    var current: Option<nat>
    var lifoSlot: Option<nat>
    var lifoConsecutive: nat
    var readyHigh: seq<nat>
    var readyNormal: seq<nat>
    var readyLow: seq<nat>
    var wakeList: seq<nat>
    ghost var awaiting: set<nat>

    ghost function View(): State
      reads this
    {
      State(fibers, strands, current, lifoSlot, lifoConsecutive, readyHigh, readyNormal, readyLow, wakeList, awaiting)
    }

    constructor ()
      ensures View() == Start
    {
      fibers, strands, current, lifoSlot, lifoConsecutive := map[], map[], None, None, 0;
      readyHigh, readyNormal, readyLow, wakeList, awaiting := [], [], [], [], {};
    }

    function Fib(f: nat): Fiber
      reads this
    {
      if f in fibers then fibers[f] else Fiber(Recyclable, None, None, 1)
    }

    function Str(st: nat): Strand
      reads this
    {
      if st in strands then strands[st] else Strand(None, [])
    }

    method AddToReadyQueue(f: nat)
      modifies this`readyHigh, this`readyNormal, this`readyLow
      ensures View() == Queued(old(View()), f)
    {
      var prio := if Fib(f).priority < 2 then Fib(f).priority else 2;
      if prio == 0 { readyHigh := readyHigh + [f]; }
      else if prio == 1 { readyNormal := readyNormal + [f]; }
      else { readyLow := readyLow + [f]; }
    }

    method PopFromReadyQueues() returns (f: Option<nat>)
      modifies this`readyHigh, this`readyNormal, this`readyLow
      ensures (View(), f) == PopReady(old(View()))
    {
      if readyHigh != [] { f := Some(readyHigh[0]); readyHigh := readyHigh[1..]; }
      else if readyNormal != [] { f := Some(readyNormal[0]); readyNormal := readyNormal[1..]; }
      else if readyLow != [] { f := Some(readyLow[0]); readyLow := readyLow[1..]; }
      else { f := None; }
    }

    /** promoteStrandWaiter, and the tail of every routine that makes a fiber ready. */
    method PromoteStrandWaiter(f: nat)
      modifies this`fibers, this`readyHigh, this`readyNormal, this`readyLow
      ensures View() == MakeReady(old(View()), f)
    {
      fibers := fibers[f := Fib(f).(status := Ready)];
      AddToReadyQueue(f);
    }

    /** strand::release: pops waiters, skipping finished ones, until one becomes active. */
    method ReleaseStrand(st: nat) returns (next: Option<nat>)
      modifies this`strands
      ensures var v := old(View());
              var q := SkipFinished(v, v.S(st).queue);
              && next == (if q == [] then None else Some(q[0]))
              && View() == v.PutStrand(st, if q == [] then Strand(None, []) else Strand(next, q[1..]))
    {
      next := None;
      var queue := Str(st).queue;
      while queue != [] && next.None?
        invariant next.None? ==>
                    SkipFinished(old(View()), old(View()).S(st).queue) == SkipFinished(old(View()), queue)
        invariant next.Some? ==>
                    SkipFinished(old(View()), old(View()).S(st).queue) == [next.value] + queue
        decreases |queue|
      {
        var candidate := queue[0];
        if !Fib(candidate).status.Recyclable? {
          next := Some(candidate);
          assert queue == [candidate] + queue[1..];
        }
        queue := queue[1..];
      }
      strands := strands[st := Strand(next, queue)];
    }

    method ReleaseAndPromote(st: nat)
      modifies this`strands, this`fibers, this`readyHigh, this`readyNormal, this`readyLow
      ensures View() == Release(old(View()), st)
    {
      var next := ReleaseStrand(st);
      if next.Some? { PromoteStrandWaiter(next.value); }
    }

    /** strand::enqueue without a pool: the fiber if it became active. */
    method EnqueueStrand(f: nat, st: nat) returns (local: Option<nat>)
      modifies this`strands
      ensures local == if old(View()).S(st).active.None? then Some(f) else None
      ensures View() == old(View()).PutStrand(st,
                if local.Some? then old(View()).S(st).(active := Some(f))
                else old(View()).S(st).(queue := old(View()).S(st).queue + [f]))
    {
      if Str(st).active.None? {
        strands := strands[st := Str(st).(active := Some(f))];
        local := Some(f);
      } else {
        strands := strands[st := Str(st).(queue := Str(st).queue + [f])];
        local := None;
      }
    }

    method ResumeBlockedFiber(f: nat)
      modifies this`strands, this`fibers, this`readyHigh, this`readyNormal, this`readyLow
      ensures View() == Route(old(View()), f)
    {
      match Fib(f).home {
        case Some(st) =>
          var local := EnqueueStrand(f, st);
          if local.Some? {
            PromoteStrandWaiter(f);
          } else {
            fibers := fibers[f := Fib(f).(status := Parked)];
          }
        case None => PromoteStrandWaiter(f);
      }
    }

    /** pollAndUnblock over the fibers found due, in order. */
    method PollAndUnblock(due: seq<nat>)
      requires Inv(View()) && current.None?
      modifies this`strands, this`fibers, this`readyHigh, this`readyNormal, this`readyLow
      ensures View() == UnblockAll(old(View()), due) && Inv(View())
      ensures forall f: nat :: f in due && WakeOrder.Suspended(old(View()).F(f)) ==> WakeOrder.Settled(View(), f)
      ensures forall f: nat :: f !in due || !WakeOrder.Suspended(old(View()).F(f)) ==> View().F(f) == old(View()).F(f)
    {
      UnblockAllKeeps(View(), due);
      WakeOrder.PollSettles(View(), due);
      var i := 0;
      while i < |due|
        invariant 0 <= i <= |due|
        invariant UnblockAll(old(View()), due) == UnblockAll(View(), due[i..])
        modifies this`strands, this`fibers, this`readyHigh, this`readyNormal, this`readyLow
      {
        assert due[i..][1..] == due[i + 1..];
        if Fib(due[i]).status.Blocked? || Fib(due[i]).status.Sleeping? {
          ResumeBlockedFiber(due[i]);
        }
        i := i + 1;
      }
    }

    /** mpsc_stack::reverse. */
    method ReverseList(list: seq<nat>) returns (reversed: seq<nat>)
      ensures reversed == Reverse(list)
    {
      reversed := [];
      var head := list;
      while head != []
        invariant Reverse(list) == Reverse(head) + reversed
        decreases |head|
      {
        reversed := [head[0]] + reversed;
        head := head[1..];
      }
    }

    method DrainWakeList()
      requires Inv(View()) && current.None?
      modifies this
      ensures Some(View()) == Drain(old(View())) && Inv(View())
      ensures forall f: nat :: f in old(wakeList) ==> WakeOrder.Settled(View(), f)
    {
      hide Inv, Reverse;
      DrainKeeps(View(), Drain(View()).value);
      WakeOrder.DrainSettles(View(), Drain(View()).value);
      var reversed := ReverseList(wakeList);
      wakeList := [];
      if |reversed| == 1 && lifoSlot.None? && Fib(reversed[0]).home.None? {
        var f := reversed[0];
        if Fib(f).status.Parked? {
          fibers := fibers[f := Fib(f).(status := Ready)];
          lifoSlot := Some(f);
          awaiting := awaiting - {f};
        }
        return;
      }
      ghost var start := View();
      var i := 0;
      while i < |reversed|
        invariant 0 <= i <= |reversed|
        invariant RouteAll(start, reversed) == RouteAll(View(), reversed[i..])
      {
        assert reversed[i..][1..] == reversed[i + 1..];
        var f := reversed[i];
        if Fib(f).status.Parked? {
          assert Fib(f).(status := Parked) == Fib(f);
          ResumeBlockedFiber(f);
          awaiting := awaiting - {f};
        }
        i := i + 1;
      }
    }

    /** The top of the run loop after the drains: pick and resume a fiber, or find nothing to run. */
    method RunNext(polled: bool) returns (picked: Option<nat>)
      requires Inv(View()) && current.None?
      modifies this
      ensures Some(View()) == Schedule(old(View()), polled) && Inv(View())
      ensures picked == current
      ensures picked.None? ==> forall f: nat :: !old(View()).F(f).Runnable()
    {
      hide Inv, PopReady, Queued;
      ScheduleKeeps(View(), Schedule(View(), polled).value, polled);
      var fiber: Option<nat> := None;
      if lifoSlot.Some? && (polled || lifoConsecutive < 3) {
        fiber := lifoSlot;
        lifoSlot := None;
        lifoConsecutive := if polled then 1 else lifoConsecutive + 1;
      } else {
        if !polled {
          lifoConsecutive := 0;
          if lifoSlot.Some? {
            QueuedApart(old(View()), lifoSlot.value);
            AddToReadyQueue(lifoSlot.value);
            lifoSlot := None;
          }
        }
        fiber := PopFromReadyQueues();
      }
      picked := fiber;
      if fiber.Some? {
        var f := fiber.value;
        current := fiber;
        fibers := fibers[f := Fib(f).(status := Running, home := Fib(f).Bound(), entering := None)];
      }
    }

    /** The fiber's switch back to the run loop as Parked, Blocked, Sleeping or Recyclable, and the strand release after it. */
    method SuspendCurrent(status: Status)
      requires Inv(View()) && Suspend(View(), status).Some?
      modifies this
      ensures Some(View()) == Suspend(old(View()), status) && Inv(View())
    {
      SuspendKeeps(View(), Suspend(View(), status).value, status);
      var f := current.value;
      fibers := fibers[f := Fib(f).(status := status)];
      current := None;
      var home := Fib(f).home;
      if home.Some? && Str(home.value).active == Some(f) {
        ReleaseAndPromote(home.value);
      }
    }

    /** strand::enter by the current fiber, and the park when it is queued. */
    method EnterStrand(st: nat) returns (active: bool)
      requires Inv(View()) && Enter(View(), st).Some?
      modifies this
      ensures Some(View()) == Enter(old(View()), st) && Inv(View())
      ensures active <==> current == old(current)
      ensures Str(st) == if active then Strand(old(current), [])
                         else Strand(old(Str(st)).active, old(Str(st)).queue + [old(current).value])
    {
      StrandOrder.EnterLast(View(), Enter(View(), st).value, st);
      EnterKeeps(View(), Enter(View(), st).value, st);
      var f := current.value;
      if Str(st).active.None? {
        strands := strands[st := Str(st).(active := Some(f))];
        fibers := fibers[f := Fib(f).(home := Some(st))];
        active := true;
      } else {
        strands := strands[st := Str(st).(queue := Str(st).queue + [f])];
        fibers := fibers[f := Fib(f).(status := Parked, entering := Some(st))];
        current := None;
        active := false;
      }
    }

    /** The release half of strand::sync and of a strand-bound yield. */
    method LeaveStrand()
      requires Inv(View()) && Leave(View()).Some?
      modifies this
      ensures Some(View()) == Leave(old(View())) && Inv(View()) && current == old(current)
    {
      LeaveKeeps(View(), Leave(View()).value);
      var f := current.value;
      var st := Fib(f).home.value;
      fibers := fibers[f := Fib(f).(home := None)];
      ReleaseAndPromote(st);
    }

    method YieldCurrent()
      requires Inv(View()) && current.Some? && current.value !in awaiting
      modifies this
      ensures Some(View()) == Yield(old(View())) && Inv(View())
      ensures current.None?
      ensures var f := old(current).value;
              var home := old(Fib(f)).home;
              home.Some? ==> var q := old(Str(home.value)).queue + [f]; Str(home.value) == Strand(Some(q[0]), q[1..])
    {
      var f := current.value;
      var home := Fib(f).home;
      StrandOrder.YieldDefined(View());
      if home.Some? { StrandOrder.YieldTurns(View(), Yield(View()).value, home.value); }
      if home.Some? && Str(home.value).active == Some(f) {
        LeaveKeeps(View(), Leave(View()).value);
        LeaveStrand();
        var active := EnterStrand(home.value);
        if !active { return; }
      }
      RequeueKeeps(View(), Requeue(View()).value);
      current := None;
      PromoteStrandWaiter(f);
    }
  }
}
