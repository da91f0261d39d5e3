/**
 First in, first out: what follows for the whole history of a queue from what
 every single step does to it.
 */
module Fifo {
  import opened Common

  /** Who is served, and who waits to be. */
  datatype Line = Line(head: Option<nat>, queue: seq<nat>)

  /**
   While the one served stays, others are only added behind those waiting.  When it
   goes and somebody waits, the first of them is served next.
   */
  ghost predicate Turn(x: Line, y: Line) {
    && (y.head == x.head ==> x.queue <= y.queue)
    && (y.head != x.head && x.queue != [] ==> y.head == Some(x.queue[0]) && x.queue[1..] <= y.queue)
  }

  ghost predicate Turns(lines: seq<Line>) {
    forall i :: 0 <= i < |lines| - 1 ==> Turn(lines[i], lines[i + 1])
  }

  ghost predicate Served(lines: seq<Line>, f: nat, m: nat, n: nat) {
    exists k :: m < k < n && k < |lines| && lines[k].head == Some(f)
  }

  /** Whoever is neither served nor waiting before place i is served only after the one at place i. */
  lemma {:induction false} NoOvertaking(lines: seq<Line>, m: nat, n: nat, i: nat, g: nat)
    requires Turns(lines) && m <= n < |lines| && i < |lines[m].queue|
    requires lines[m].head != Some(g) && g !in lines[m].queue[..i + 1] && lines[n].head == Some(g)
    ensures Served(lines, lines[m].queue[i], m, n)
    decreases n - m
  {
    var x, y := lines[m], lines[m + 1];
    var q, r := x.queue, y.queue;
    assert Turn(x, y);
    assert g != q[i] by { assert q[i] in q[..i + 1]; }
    if y.head == x.head {
      assert q[..i + 1] == r[..i + 1];
      NoOvertaking(lines, m + 1, n, i, g);
    } else if i > 0 {
      assert q[1..][..i] == r[..i] && r[i - 1] == q[1..][i - 1];
      assert q[..i + 1] == [q[0]] + q[1..][..i];
      assert g != q[0] by { assert q[0] in q[..i + 1]; }
      NoOvertaking(lines, m + 1, n, i - 1, g);
    }
  }

  /** How often the one served has changed. */
  function Changes(lines: seq<Line>, m: nat, n: nat): nat
    requires m <= n < |lines|
    decreases n - m
  {
    if m == n then 0 else (if lines[m + 1].head != lines[m].head then 1 else 0) + Changes(lines, m + 1, n)
  }

  /** With i others before it, one is served by the time the one served has changed i + 1 times. */
  lemma {:induction false} TurnComes(lines: seq<Line>, m: nat, n: nat, i: nat)
    requires Turns(lines) && m <= n < |lines| && i < |lines[m].queue| && Changes(lines, m, n) > i
    ensures Served(lines, lines[m].queue[i], m, n + 1)
    decreases n - m
  {
    var x, y := lines[m], lines[m + 1];
    assert Turn(x, y);
    if y.head != Some(x.queue[i]) {
      var d := if y.head == x.head then 0 else 1;
      assert x.queue[d..][i - d] == x.queue[i] == y.queue[i - d];
      TurnComes(lines, m + 1, n, i - d);
    }
  }

  // ------------------------------------------------------------- a queue alone

  /** The first of q is taken off, and others may be added behind. */
  ghost predicate Taken(q: seq<nat>, r: seq<nat>, f: nat) {
    q != [] && q[0] == f && q[1..] <= r && !(q <= r)
  }

  /** At every step the queue is added to behind, or its first is taken off. */
  ghost predicate Shifts(queues: seq<seq<nat>>) {
    forall i :: 0 <= i < |queues| - 1 ==> Shift(queues[i], queues[i + 1])
  }

  ghost predicate Shift(q: seq<nat>, r: seq<nat>) {
    NoDup(q) && (q <= r || (q != [] && Taken(q, r, q[0])))
  }

  ghost predicate TakenBetween(queues: seq<seq<nat>>, f: nat, m: nat, n: nat) {
    exists k :: m <= k < n && k + 1 < |queues| && Taken(queues[k], queues[k + 1], f)
  }

  /** Of two in the queue, the first is taken off first. */
  lemma {:induction false} TakenInOrder(queues: seq<seq<nat>>, m: nat, n: nat, i: nat, j: nat)
    requires Shifts(queues) && m <= n < |queues| - 1 && i < j < |queues[m]|
    requires Taken(queues[n], queues[n + 1], queues[m][j])
    ensures TakenBetween(queues, queues[m][i], m, n)
    decreases n - m
  {
    var q, r := queues[m], queues[m + 1];
    assert Shift(q, r);
    if q <= r {
      assert m < n;
      TakenInOrder(queues, m + 1, n, i, j);
    } else if i > 0 {
      assert q[1..][i - 1] == q[i] == r[i - 1] && q[1..][j - 1] == q[j] == r[j - 1];
      assert m < n;
      TakenInOrder(queues, m + 1, n, i - 1, j - 1);
    }
  }
}
