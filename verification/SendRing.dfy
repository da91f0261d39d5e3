/**
 The sender-owned ring of psiber task slots: contiguous slots cut at the head,
 a sentinel over the bytes wasted at the end when a slot has to wrap, and
 in-order reclamation of consumed slots at the tail.
 */
module SendRing {
  import opened Common

  /** sizeof(TaskSlotHeader), and the ring's alignment. */
  const HEADER: nat := 48
  const ALIGN: nat := 16

  /** align_up in 32-bit arithmetic. */
  function AlignUp(n: nat): (r: nat)
    ensures n + ALIGN - 1 < TWO32 ==> n <= r < n + ALIGN
    ensures r % ALIGN == 0 && r < TWO32
  {
    var m := (n + ALIGN - 1) % TWO32;
    m - m % ALIGN
  }

  /** The slot size for a payload. */
  function TotalFor(payload: nat): (total: nat)
    ensures HEADER + payload + 15 < TWO32 ==> HEADER + payload <= total < HEADER + payload + 16
    ensures total % ALIGN == 0 && total < TWO32
  {
    AlignUp((HEADER + payload) % TWO32)
  }

  /** The words of a TaskSlotHeader; task says that destroy is not null. */
  datatype Header = Header(size: nat, consumed: bool, task: bool)

  /** An extent of the ring that has been handed out: a slot or a wasted end. */
  datatype Extent = Extent(off: nat, size: nat) {
    function End(): nat { off + size }
  }

  ghost function Sum(used: seq<Extent>): nat {
    if used == [] then 0 else used[0].size + Sum(used[1..])
  }

  /** A position at most one ring length on, taken modulo the ring. */
  function Cyclic(ring: nat, p: nat): (r: nat)
    requires 0 < ring && p <= ring
    ensures r == p % ring && r < ring
  {
    if p == ring then 0 else p
  }

  /** The extents follow one another cyclically from tail to head, none straddling the end. */
  ghost predicate Walk(ring: nat, tail: nat, used: seq<Extent>, head: nat)
    requires ring > 0
    decreases used
  {
    if used == [] then tail == head
    else
      && used[0].off == tail && 0 < used[0].size && used[0].End() <= ring
      && Walk(ring, Cyclic(ring, used[0].End()), used[1..], head)
  }

  /** Sizes and free bytes add up to the ring, the extents tile the used region, every extent has its header. */
  ghost predicate Consistent(ring: nat, head: nat, tail: nat, free: nat, headers: map<nat, Header>, used: seq<Extent>) {
    && 0 < ring < TWO32 && ring % ALIGN == 0
    && head < ring && tail < ring && head % ALIGN == 0
    && Sum(used) + free == ring
    && Walk(ring, tail, used, head)
    && (forall e :: e in used ==> e.off in headers && headers[e.off].size == e.size)
    && (forall o :: o in headers ==> headers[o].size >= HEADER)
  }

  lemma {:induction false} SumAppend(a: seq<Extent>, b: seq<Extent>)
    ensures Sum(a + b) == Sum(a) + Sum(b)
  {
    if a == [] {
      assert a + b == b;
    } else {
      assert (a + b)[1..] == a[1..] + b;
      SumAppend(a[1..], b);
    }
  }

  lemma HeadersOf(ring: nat, head: nat, tail: nat, free: nat, headers: map<nat, Header>, used: seq<Extent>)
    requires Consistent(ring, head, tail, free, headers, used)
    ensures forall i :: 0 <= i < |used| ==> used[i].off in headers
  {
  }

  lemma SizesOf(ring: nat, head: nat, tail: nat, free: nat, headers: map<nat, Header>, used: seq<Extent>)
    requires Consistent(ring, head, tail, free, headers, used)
    ensures forall o :: o in headers ==> headers[o].size >= HEADER
  {
  }

  lemma SumOne(e: Extent)
    ensures Sum([e]) == e.size
  {
  }

  lemma CyclicAligned(ring: nat, p: nat)
    requires 0 < ring && p <= ring && p % ALIGN == 0
    ensures Cyclic(ring, p) % ALIGN == 0
  {
  }

  lemma {:induction false} WalkAppend(ring: nat, tail: nat, used: seq<Extent>, head: nat, e: Extent)
    requires ring > 0 && Walk(ring, tail, used, head)
    requires e.off == head && 0 < e.size && e.End() <= ring
    ensures Walk(ring, tail, used + [e], Cyclic(ring, e.End()))
    decreases used
  {
    if used == [] {
      assert (used + [e])[1..] == [];
    } else {
      assert (used + [e])[1..] == used[1..] + [e];
      WalkAppend(ring, Cyclic(ring, used[0].End()), used[1..], head, e);
    }
  }

  /** Where the i-th extent lies: the bytes before it counted cyclically from the tail. */
  lemma {:induction false} WalkOffset(ring: nat, tail: nat, used: seq<Extent>, head: nat, i: nat)
    requires ring > 0 && tail < ring && Walk(ring, tail, used, head) && Sum(used) <= ring && i < |used|
    ensures var before := tail + Sum(used[..i]);
            used[i].off == (if before < ring then before else before - ring)
    ensures 0 < used[i].size && used[i].End() <= ring
    ensures Sum(used[..i]) + used[i].size <= Sum(used)
    decreases used
  {
    if i == 0 {
      assert used[..0] == [];
    } else {
      var next := Cyclic(ring, used[0].End());
      assert used[..i][1..] == used[1..][..i - 1];
      WalkOffset(ring, next, used[1..], head, i - 1);
    }
  }

  /** Extents in use never overlap. */
  lemma ExtentsDisjoint(ring: nat, tail: nat, used: seq<Extent>, head: nat, i: nat, j: nat)
    requires ring > 0 && tail < ring && Walk(ring, tail, used, head) && Sum(used) <= ring && i < j < |used|
    ensures used[i].End() <= used[j].off || used[j].End() <= used[i].off
    ensures used[i].off != used[j].off
  {
    WalkOffset(ring, tail, used, head, i);
    WalkOffset(ring, tail, used, head, j);
    assert used[..j] == used[..i] + [used[i]] + used[i + 1..j];
    SumAppend(used[..i] + [used[i]], used[i + 1..j]);
    SumAppend(used[..i], [used[i]]);
    assert Sum([used[i]]) == used[i].size;
  }

  /** Handing out the bytes at head keeps the ring consistent when they carry a header of their size. */
  lemma TakeAtHead(ring: nat, head: nat, tail: nat, free: nat, headers: map<nat, Header>, used: seq<Extent>,
                   size: nat, after: map<nat, Header>)
    requires Consistent(ring, head, tail, free, headers, used)
    requires 0 < size <= free && head + size <= ring && size % ALIGN == 0 && size >= HEADER
    requires head in after && after[head].size == size
    requires forall o :: o in after && o != head ==> o in headers && after[o] == headers[o]
    requires forall o :: o in headers && (o < head || head + size <= o) ==> o in after
    ensures Consistent(ring, Cyclic(ring, head + size), tail, free - size, after, used + [Extent(head, size)])
  {
    hide Walk, Sum;
    var e := Extent(head, size);
    var used' := used + [e];
    SumAppend(used, [e]);
    SumOne(e);
    WalkAppend(ring, tail, used, head, e);
    CyclicAligned(ring, head + size);
    forall i | 0 <= i < |used| ensures used[i].off in after && after[used[i].off].size == used[i].size {
      ExtentsDisjoint(ring, tail, used', Cyclic(ring, e.End()), i, |used|);
      assert used[i] in used && used'[i] == used[i];
      WalkOffset(ring, tail, used', Cyclic(ring, e.End()), i);
    }
  }

  /** Writing total_size at off; stale headers under the new slot are overwritten by its payload. */
  function Stamp(headers: map<nat, Header>, off: nat, size: nat): (after: map<nat, Header>)
    ensures off in after && after[off].size == size
    ensures forall o :: o in after && o != off ==> o in headers && after[o] == headers[o]
    ensures forall o :: o in after <==> o == off || (o in headers && (o < off || off + size <= o))
  {
    var kept := map o | o in headers && (o < off || off + size <= o) :: headers[o];
    var stale := if off in headers then headers[off] else Header(0, false, false);
    kept[off := stale.(size := size)]
  }

  /** The offsets of the extents that still hold a task, in order. */
  ghost function Tasks(used: seq<Extent>, headers: map<nat, Header>): seq<nat> {
    if used == [] then []
    else (if used[0].off in headers && headers[used[0].off].task then [used[0].off] else []) + Tasks(used[1..], headers)
  }

  lemma TasksHead(used: seq<Extent>, headers: map<nat, Header>)
    requires used != [] && used[0].off in headers
    ensures Tasks(used, headers) == (if headers[used[0].off].task then [used[0].off] else []) + Tasks(used[1..], headers)
  {
  }

  /** Whatever holds no task is marked for reclamation. */
  ghost predicate Reclaimable(used: seq<Extent>, headers: map<nat, Header>) {
    forall e :: e in used ==> e.off in headers && (headers[e.off].task || headers[e.off].consumed)
  }

  ghost predicate TasksConsumed(used: seq<Extent>, headers: map<nat, Header>) {
    forall e :: e in used && e.off in headers && headers[e.off].task ==> headers[e.off].consumed
  }

  lemma ReclaimableAfter(used: seq<Extent>, waste: seq<Extent>, e: Extent, before: map<nat, Header>, after: map<nat, Header>)
    requires Reclaimable(used, before) && forall u :: u in used ==> u.off in after && after[u.off] == before[u.off]
    requires forall w :: w in waste ==> w.off in after && after[w.off].consumed
    requires e.off in after && after[e.off].task
    ensures Reclaimable(used + waste + [e], after)
  {
  }

  lemma ReclaimableRest(used: seq<Extent>, headers: map<nat, Header>, rest: seq<Extent>, after: map<nat, Header>)
    requires Reclaimable(used, headers)
    requires forall u :: u in rest ==> u in used && u.off in after && after[u.off] == headers[u.off]
    ensures Reclaimable(rest, after)
  {
  }

  /** When every task has been run, whatever extent comes first is marked. */
  lemma FirstConsumed(was: seq<Extent>, before: map<nat, Header>, used: seq<Extent>, headers: map<nat, Header>)
    requires forall e :: e in used ==> e in was && e.off in before && e.off in headers && headers[e.off] == before[e.off]
    requires Reclaimable(used, headers)
    ensures used != [] && TasksConsumed(was, before) ==> headers[used[0].off].consumed
  {
    assert used != [] ==> used[0] in used;
  }

  ghost predicate AllConsumed(used: seq<Extent>, headers: map<nat, Header>) {
    forall i :: 0 <= i < |used| ==> used[i].off in headers && headers[used[i].off].consumed
  }

  /** All of the first n extents are consumed, and the next, if there is one, is not. */
  ghost predicate ConsumedUpTo(was: seq<Extent>, headers: map<nat, Header>, n: nat)
    requires n <= |was|
  {
    AllConsumed(was[..n], headers) && (n < |was| ==> was[n].off in headers && !headers[was[n].off].consumed)
  }

  /** The consumed extents at the front, n of them, are gone, with their bytes freed and their tasks destroyed. */
  ghost predicate Retired(was: seq<Extent>, headers: map<nat, Header>, now: seq<Extent>, freed: int, gone: seq<nat>, n: nat) {
    && n <= |was| && now == was[n..] && ConsumedUpTo(was, headers, n)
    && freed == Sum(was[..n]) && gone == Tasks(was[..n], headers)
  }

  /** The consumed extents at the front are gone. */
  ghost predicate Follows(was: seq<Extent>, headers: map<nat, Header>, now: seq<Extent>) {
    exists n: nat :: n <= |was| && now == was[n..] && ConsumedUpTo(was, headers, n)
  }

  lemma FreeBytes(ring: nat, head: nat, tail: nat, free: nat, headers: map<nat, Header>, used: seq<Extent>)
    requires Consistent(ring, head, tail, free, headers, used)
    ensures free == ring - Sum(used)
  {
  }

  lemma SumNone()
    ensures Sum([]) == 0
  {
  }

  lemma RetiredFollows(was: seq<Extent>, headers: map<nat, Header>, now: seq<Extent>, freed: int, gone: seq<nat>, n: nat)
    requires Retired(was, headers, now, freed, gone, n)
    ensures Follows(was, headers, now)
  {
  }

  lemma FollowsNothing(headers: map<nat, Header>, now: seq<Extent>)
    requires Follows([], headers, now)
    ensures now == []
  {
  }

  /** An extent not consumed stays. */
  lemma FollowsLive(e: Extent, headers: map<nat, Header>, now: seq<Extent>)
    requires Follows([e], headers, now) && e.off in headers && !headers[e.off].consumed
    ensures now == [e]
  {
    assert [e][..1] == [e] && [e][0] == e && [e][0..] == [e];
    assert !AllConsumed([e], headers);
  }

  /** Of two extents of which the first is consumed and the second is not, the first is gone if no consumed one is left first. */
  lemma RetiredFirst(a: Extent, b: Extent, headers: map<nat, Header>, now: seq<Extent>, freed: int, gone: seq<nat>, n: nat)
    requires Retired([a, b], headers, now, freed, gone, n) && a.off in headers && b.off in headers
    requires headers[a.off].consumed && !headers[b.off].consumed && (now != [] ==> now[0] != a)
    ensures now == [b]
  {
    assert [a, b][..2] == [a, b] && [a, b][1] == b && [a, b][0..] == [a, b] && [a, b][1..] == [b];
    assert !AllConsumed([a, b], headers);
  }

  /** Tasks looks at the headers of its extents only. */
  lemma {:induction false} TasksFrame(used: seq<Extent>, a: map<nat, Header>, b: map<nat, Header>)
    requires forall e :: e in used ==> (e.off in a <==> e.off in b) && (e.off in a ==> a[e.off].task == b[e.off].task)
    ensures Tasks(used, a) == Tasks(used, b)
  {
    if used != [] {
      assert used[0] in used;
      TasksFrame(used[1..], a, b);
    }
  }

  lemma {:induction false} TasksAppend(a: seq<Extent>, b: seq<Extent>, headers: map<nat, Header>)
    ensures Tasks(a + b, headers) == Tasks(a, headers) + Tasks(b, headers)
  {
    if a == [] {
      assert a + b == b;
    } else {
      assert (a + b)[1..] == a[1..] + b;
      TasksAppend(a[1..], b, headers);
    }
  }

  lemma PrefixStep(used: seq<Extent>, n: nat, headers: map<nat, Header>)
    requires n < |used| && used[n].off in headers
    ensures Sum(used[..n + 1]) == Sum(used[..n]) + used[n].size
    ensures Tasks(used[..n + 1], headers)
         == Tasks(used[..n], headers) + (if headers[used[n].off].task then [used[n].off] else [])
  {
    assert used[..n + 1] == used[..n] + [used[n]];
    SumAppend(used[..n], [used[n]]);
    TasksAppend(used[..n], [used[n]], headers);
    assert Sum([used[n]]) == used[n].size;
  }

  /** A freshly stamped task goes behind the waiting ones; a sentinel before it holds none. */
  lemma PushedLast(used: seq<Extent>, waste: seq<Extent>, e: Extent, before: map<nat, Header>, after: map<nat, Header>)
    requires forall u :: u in used ==> u.off in before && u.off in after && before[u.off].task == after[u.off].task
    requires |waste| <= 1 && forall w :: w in waste ==> w.off in after && !after[w.off].task
    requires e.off in after && after[e.off].task
    ensures Tasks(used + waste + [e], after) == Tasks(used, before) + [e.off]
  {
    TasksFrame(used, before, after);
    TasksAppend(used + waste, [e], after);
    TasksAppend(used, waste, after);
    assert Tasks([e], after) == [e.off] && Tasks(waste, after) == [];
  }

  /** Retiring the first extent. */
  lemma TailThere(ring: nat, head: nat, tail: nat, free: nat, headers: map<nat, Header>, used: seq<Extent>)
    requires Consistent(ring, head, tail, free, headers, used) && free < ring
    ensures tail in headers
  {
    assert used[0] in used;
  }

  /** The ring is entirely free or its first extent is at the tail. */
  lemma EndsAtTail(ring: nat, head: nat, tail: nat, free: nat, headers: map<nat, Header>, used: seq<Extent>)
    requires Consistent(ring, head, tail, free, headers, used)
    ensures free == ring <==> used == []
    ensures used != [] ==> used[0].off == tail
  {
  }

  lemma NothingFreed(all: seq<Extent>, headers: map<nat, Header>)
    ensures Sum(all[..0]) == 0 && Tasks(all[..0], headers) == [] && AllConsumed(all[..0], headers)
  {
  }

  lemma PopAtTail(ring: nat, head: nat, tail: nat, free: nat, headers: map<nat, Header>, used: seq<Extent>, h: Header)
    requires Consistent(ring, head, tail, free, headers, used) && free < ring
    requires tail in headers ==> h.size == headers[tail].size
    ensures used != [] && used[0].off == tail && tail in headers && headers[tail].size == used[0].size
    ensures 0 < ring && tail + used[0].size <= ring && free + used[0].size <= ring
    ensures Cyclic(ring, tail + used[0].size) == (tail + used[0].size) % ring
    ensures Consistent(ring, head, Cyclic(ring, tail + used[0].size), free + used[0].size, headers[tail := h], used[1..])
    ensures forall e :: e in used[1..] ==> e.off != tail && e.off in headers
  {
    assert used[0] in used;
    forall i | 0 < i < |used| ensures used[i].off != tail {
      ExtentsDisjoint(ring, tail, used, head, 0, i);
    }
  }

  /** A slot that fits before the end of the ring. */
  lemma FitsAtHead(ring: nat, head: nat, tail: nat, free: nat, headers: map<nat, Header>, used: seq<Extent>,
                   payload: nat)
    requires Consistent(ring, head, tail, free, headers, used) && payload < TWO32
    requires TotalFor(payload) <= free && head + TotalFor(payload) <= ring
    ensures var total := TotalFor(payload);
            Consistent(ring, (head + total) % ring, tail, free - total, Stamp(headers, head, total), used + [Extent(head, total)])
            && HEADER + payload <= total
            <==> HEADER + payload + 15 < TWO32
  {
    var total := TotalFor(payload);
    if HEADER + payload + 15 < TWO32 {
      TakeAtHead(ring, head, tail, free, headers, used, total, Stamp(headers, head, total));
    } else {
      assert Stamp(headers, head, total)[head].size == total;
    }
  }

  /** The headers after a wrap: the sentinel only if the wasted end has room for it. */
  function WrapHeaders(headers: map<nat, Header>, head: nat, waste: nat, total: nat): (after: map<nat, Header>)
    ensures 0 in after && after[0].size == total
  {
    Stamp(if waste >= HEADER then headers[head := Header(waste, true, false)] else headers, 0, total)
  }

  lemma WrapUnfold(headers: map<nat, Header>, head: nat, waste: nat, total: nat)
    ensures WrapHeaders(headers, head, waste, total)
         == Stamp(if waste >= HEADER then headers[head := Header(waste, true, false)] else headers, 0, total)
  {
  }

  lemma WrapsSoundly(ring: nat, head: nat, tail: nat, free: nat, headers: map<nat, Header>, used: seq<Extent>,
                     total: nat)
    requires Consistent(ring, head, tail, free, headers, used)
    requires HEADER <= ring - head < total && ring - head + total <= free && total % ALIGN == 0
    ensures Consistent(ring, total, tail, free - (ring - head) - total, WrapHeaders(headers, head, ring - head, total),
                       used + [Extent(head, ring - head)] + [Extent(0, total)])
  {
    hide Consistent, Stamp, WrapHeaders;
    var waste := ring - head;
    var headers1 := headers[head := Header(waste, true, false)];
    Bounds(ring, head, tail, free, headers, used);
    SentinelTaken(ring, head, tail, free, headers, used);
    WrapUnfold(headers, head, waste, total);
    TakeAtHead(ring, 0, tail, free - waste, headers1, used + [Extent(head, waste)], total, Stamp(headers1, 0, total));
  }

  /** The end of the ring, with a sentinel in it, is one more extent. */
  lemma SentinelTaken(ring: nat, head: nat, tail: nat, free: nat, headers: map<nat, Header>, used: seq<Extent>)
    requires Consistent(ring, head, tail, free, headers, used) && head <= ring && HEADER <= ring - head <= free
    ensures Consistent(ring, 0, tail, free - (ring - head), headers[head := Header(ring - head, true, false)],
                       used + [Extent(head, ring - head)])
  {
    WasteAligned(ring, head, tail, free, headers, used);
    hide Consistent;
    TakeAtHead(ring, head, tail, free, headers, used, ring - head, headers[head := Header(ring - head, true, false)]);
  }

  lemma WasteAligned(ring: nat, head: nat, tail: nat, free: nat, headers: map<nat, Header>, used: seq<Extent>)
    requires Consistent(ring, head, tail, free, headers, used)
    ensures 0 < ring && (ring - head) % ALIGN == 0
  {
    hide Walk, Sum;
  }

  /** A slot that wastes the end of the ring and starts again at 0. */
  lemma WrapsAround(ring: nat, head: nat, tail: nat, free: nat, headers: map<nat, Header>, used: seq<Extent>,
                    payload: nat)
    requires Consistent(ring, head, tail, free, headers, used) && payload < TWO32
    requires var total := TotalFor(payload);
             total <= free && ring - head < total && (ring - head + total) % TWO32 <= free
    ensures var total, waste := TotalFor(payload), ring - head;
            Consistent(ring, total, tail, (free - waste - total) % TWO32, WrapHeaders(headers, head, waste, total),
                       used + [Extent(head, waste)] + [Extent(0, total)])
            && HEADER + payload <= total
            <==> HEADER + payload + 15 < TWO32 && HEADER <= waste && waste + total < TWO32
  {
    hide Consistent, WrapHeaders, TotalFor, AlignUp, Sum;
    Bounds(ring, head, tail, free, headers, used);
    var total, waste := TotalFor(payload), ring - head;
    var headers2 := WrapHeaders(headers, head, waste, total);
    var used2 := used + [Extent(head, waste)] + [Extent(0, total)];
    var free2 := (free - waste - total) % TWO32;
    TotalSound(payload);
    NoWrap(waste + total);
    NoWrap(free - waste - total);
    if HEADER + payload + 15 < TWO32 && HEADER <= waste && waste + total < TWO32 {
      WrapsSoundly(ring, head, tail, free, headers, used, total);
      assert free2 == free - waste - total;
    } else if Consistent(ring, total, tail, free2, headers2, used2) {
      WrapNeeds(ring, tail, free2, headers2, used, Extent(head, waste), Extent(0, total));
    }
  }

  /** The slot holds its payload exactly when the size computation does not wrap. */
  lemma TotalSound(payload: nat)
    requires payload < TWO32
    ensures HEADER + payload <= TotalFor(payload) <==> HEADER + payload + 15 < TWO32
  {
  }

  lemma NoWrap(x: int)
    ensures 0 <= x < TWO32 ==> x % TWO32 == x
  {
  }

  /** A consistent ring whose last two extents are a sentinel and a slot has room for both. */
  lemma WrapNeeds(ring: nat, tail: nat, free: nat, headers: map<nat, Header>, used: seq<Extent>, a: Extent, b: Extent)
    requires Consistent(ring, b.size, tail, free, headers, used + [a] + [b])
    ensures HEADER <= a.size && HEADER <= b.size && a.size + b.size <= Sum(used) + a.size + b.size <= ring < TWO32
  {
    hide Consistent, Sum;
    assert a in used + [a] + [b] && b in used + [a] + [b];
    Needs(ring, b.size, tail, free, headers, used + [a] + [b], a);
    Needs(ring, b.size, tail, free, headers, used + [a] + [b], b);
    SumTwo(used, a, b);
  }

  lemma SumTwo(used: seq<Extent>, a: Extent, b: Extent)
    ensures Sum(used + [a] + [b]) == Sum(used) + a.size + b.size
  {
    SumAppend(used + [a], [b]);
    SumAppend(used, [a]);
    assert Sum([a]) == a.size && Sum([b]) == b.size;
  }

  /** In a consistent ring every extent has room for a header and the sizes fit the ring. */
  lemma Needs(ring: nat, head: nat, tail: nat, free: nat, headers: map<nat, Header>, used: seq<Extent>, e: Extent)
    requires Consistent(ring, head, tail, free, headers, used) && e in used
    ensures HEADER <= e.size && Sum(used) <= ring < TWO32
  {
  }

  /** Filling in the rest of a header does not matter to the layout. */
  lemma Restamp(ring: nat, head: nat, tail: nat, free: nat, a: map<nat, Header>, used: seq<Extent>, off: nat, h: Header)
    requires off in a && h.size == a[off].size
    ensures Consistent(ring, head, tail, free, a, used) <==> Consistent(ring, head, tail, free, a[off := h], used)
  {
    var b := a[off := h];
    assert forall o :: o in a <==> o in b;
    assert forall o :: o in a ==> a[o].size == b[o].size;
  }

  lemma Bounds(ring: nat, head: nat, tail: nat, free: nat, headers: map<nat, Header>, used: seq<Extent>)
    requires Consistent(ring, head, tail, free, headers, used)
    ensures 0 < ring < TWO32 && head < ring && free <= ring
  {
  }

  /** Allocation writes no header of an extent in use before it, and any sentinel holds no task. */
  lemma KeptHeaders(ring: nat, start: nat, head: nat, tail: nat, free: nat,
                    before: map<nat, Header>, after: map<nat, Header>, used: seq<Extent>, total: nat)
    requires start < ring && 0 < total
    requires after == if total <= ring - start then Stamp(before, start, total)
                      else WrapHeaders(before, start, ring - start, total)
    requires total > ring - start ==> ring - start >= HEADER
    requires var waste := if total <= ring - start then [] else [Extent(start, ring - start)];
             Consistent(ring, head, tail, free, after,
                        used + waste + [Extent(if total <= ring - start then start else 0, total)])
    ensures forall e :: e in used ==> e.off in before && e.off in after && after[e.off] == before[e.off]
    ensures forall e :: e in used ==> e.off != (if total <= ring - start then start else 0)
    ensures total > ring - start ==>
              start != 0 && start in after && !after[start].task && after[start].consumed
  {
    var wraps := total > ring - start;
    var waste := if wraps then [Extent(start, ring - start)] else [];
    var slot := Extent(if wraps then 0 else start, total);
    var all := used + waste + [slot];
    var last := |all| - 1;
    assert all[last] == slot;
    if wraps {
      assert all[|used|] == Extent(start, ring - start);
      ExtentsDisjoint(ring, tail, all, head, |used|, last);
      WalkOffset(ring, tail, all, head, last);
    }
    forall i | 0 <= i < |used|
      ensures used[i].off in before && used[i].off in after && after[used[i].off] == before[used[i].off]
      ensures used[i].off != slot.off
    {
      assert all[i] == used[i] && all[i] in all;
      ExtentsDisjoint(ring, tail, all, head, i, last);
      if wraps { ExtentsDisjoint(ring, tail, all, head, i, |used|); }
    }
  }

  // ------------------------------------------------------------- what is granted

  /** The size bytes from off on lie in the ring, and no extent in use reaches into them. */
  ghost predicate Unused(ring: nat, used: seq<Extent>, off: nat, size: nat) {
    off + size <= ring && forall i :: 0 <= i < |used| ==> used[i].End() <= off || off + size <= used[i].off
  }

  /** Where head is, by the bytes in use. */
  lemma {:induction false} WalkEnd(ring: nat, tail: nat, used: seq<Extent>, head: nat)
    requires ring > 0 && tail < ring && Walk(ring, tail, used, head) && Sum(used) <= ring
    ensures head == if tail + Sum(used) < ring then tail + Sum(used) else tail + Sum(used) - ring
    decreases used
  {
    if used != [] {
      WalkEnd(ring, Cyclic(ring, used[0].End()), used[1..], head);
    }
  }

  /** Extents that go on past the end of the ring start again at 0. */
  lemma {:induction false} StartsAgain(ring: nat, tail: nat, used: seq<Extent>, head: nat) returns (i: nat)
    requires ring > 0 && tail < ring && Walk(ring, tail, used, head) && ring < tail + Sum(used)
    ensures i < |used| && used[i].off == 0 && used[i].size > 0
    decreases used
  {
    var j := 0;
    if used[0].End() < ring {
      j := StartsAgain(ring, used[0].End(), used[1..], head);
    }
    i := j + 1;
  }

  lemma AtTail(ring: nat, head: nat, tail: nat, free: nat, headers: map<nat, Header>, used: seq<Extent>)
    requires Consistent(ring, head, tail, free, headers, used)
    ensures free < ring ==> used != [] && used[0].off == tail && 0 < used[0].size
    ensures free == ring ==> used == []
  {
    assert used != [] ==> Sum(used) > 0;
  }

  /** There is room at head exactly when the free bytes suffice. */
  lemma RoomAtHead(ring: nat, head: nat, tail: nat, free: nat, headers: map<nat, Header>, used: seq<Extent>, total: nat)
    requires Consistent(ring, head, tail, free, headers, used) && 0 < total && head + total <= ring
    ensures total <= free <==> Unused(ring, used, head, total)
  {
    WalkEnd(ring, tail, used, head);
    AtTail(ring, head, tail, free, headers, used);
    hide Walk;
    forall i | 0 <= i < |used| && total <= free
      ensures used[i].End() <= head || head + total <= used[i].off
    {
      WalkOffset(ring, tail, used, head, i);
    }
  }

  /** Past the end of the ring there is room at 0, below the end that is wasted, exactly when the free bytes suffice for both. */
  lemma RoomAtStart(ring: nat, head: nat, tail: nat, free: nat, headers: map<nat, Header>, used: seq<Extent>, total: nat)
    requires Consistent(ring, head, tail, free, headers, used) && 0 < total
    ensures ring - head + total <= free <==> total <= head && Unused(ring, used, 0, total)
  {
    WalkEnd(ring, tail, used, head);
    AtTail(ring, head, tail, free, headers, used);
    if ring < tail + Sum(used) {
      var i := StartsAgain(ring, tail, used, head);
    } else {
      hide Walk;
      forall i | 0 <= i < |used| && total <= tail
        ensures total <= used[i].off
      {
        WalkOffset(ring, tail, used, head, i);
      }
    }
  }

  /**
   A slot is granted exactly when the bytes at head are unused up to the slot's
   end, or the slot does not fit before the end of the ring and the bytes at 0 are
   unused and below head.
   */
  lemma GrantIff(ring: nat, head: nat, tail: nat, free: nat, headers: map<nat, Header>, used: seq<Extent>, total: nat)
    requires Consistent(ring, head, tail, free, headers, used) && 0 < total && ring - head + total < TWO32
    ensures Refused(ring, head, free, total) <==>
      !(Unused(ring, used, head, total) || (ring < head + total && total <= head && Unused(ring, used, 0, total)))
  {
    if head + total <= ring {
      RoomAtHead(ring, head, tail, free, headers, used, total);
    } else {
      RoomAtStart(ring, head, tail, free, headers, used, total);
    }
  }

  /** The two ways alloc gives up: too little space, or too little once the end is wasted. */
  predicate Refused(ring: nat, head: nat, free: nat, total: nat)
    requires head <= ring
  {
    free < total || (ring - head < total && free < (ring - head + total) % TWO32)
  }

  /** An empty ring refuses a slot exactly when it fits neither before nor after head; hasSpace says it fits if the ring is as large. */
  lemma EmptyRefuses(ring: nat, head: nat, total: nat)
    requires head < ring < TWO32 && 0 < total <= ring && ring - head + total < TWO32
    ensures Refused(ring, head, ring, total) <==> ring - head < total && head < total
  {
  }

  class SendQueue {
    const ringBytes: nat
    var head: nat
    var tail: nat
    var freeBytes: nat
    /** The header words last written at each offset of the ring. */
    var headers: map<nat, Header>
    /** The extents handed out and not yet reclaimed, oldest first. */
    ghost var used: seq<Extent>
    /** Every task ever put in the ring, and every task destroyed, by slot offset. */
    ghost var pushed: seq<nat>
    ghost var destroyed: seq<nat>

    /** The layout is consistent and each pushed task is destroyed already or waiting, in order. */
    ghost predicate Valid()
      reads this
    {
      && Consistent(ringBytes, head, tail, freeBytes, headers, used) && Reclaimable(used, headers)
      && pushed == destroyed + Tasks(used, headers)
    }

    constructor (bytes: nat)
      requires 0 < bytes && bytes + 15 < TWO32
      ensures Valid() && used == [] && bytes <= ringBytes < bytes + 16 && freeBytes == ringBytes && head == 0
    {
      ringBytes := AlignUp(bytes);
      head, tail, freeBytes, headers, used := 0, 0, AlignUp(bytes), map[], [];
      pushed, destroyed := [], [];
    }

    predicate AllocRefuses(payload: nat)
      reads this
      requires head <= ringBytes
    {
      Refused(ringBytes, head, freeBytes, TotalFor(payload))
    }

    /** hasSpace. */
    method HasSpace(payload: nat) returns (r: bool)
      requires Consistent(ringBytes, head, tail, freeBytes, headers, used) && payload < TWO32
      ensures r <==> TotalFor(payload) <= freeBytes
      ensures head <= ringBytes && (!r ==> AllocRefuses(payload))
      ensures r && AllocRefuses(payload) ==> ringBytes < head + TotalFor(payload)
    {
      r := freeBytes >= TotalFor(payload);
    }

    /** The end that a slot for the payload would waste. */
    ghost function Wasted(payload: nat): seq<Extent>
      reads this
      requires head <= ringBytes
    {
      if TotalFor(payload) <= ringBytes - head then [] else [Extent(head, ringBytes - head)]
    }

    /** The size does not wrap and, if the slot wraps, the wasted end has room for its sentinel. */
    predicate AllocSound(payload: nat)
      reads this
      requires head <= ringBytes
    {
      var total, waste := TotalFor(payload), ringBytes - head;
      HEADER + payload + 15 < TWO32 && (total <= waste || (HEADER <= waste && waste + total < TWO32))
    }

    /**
     A refused allocation changes nothing.  A granted slot is the newest extent,
     after a wasted end if it wrapped; it is large enough and the ring stays
     consistent (so reclaim will find every header) if and only if AllocSound.
     */
    method Alloc(payload: nat) returns (slot: Option<nat>)
      requires Consistent(ringBytes, head, tail, freeBytes, headers, used) && payload < TWO32
      modifies this`head, this`freeBytes, this`headers, this`used
      ensures slot.None? <==> old(AllocRefuses(payload))
      ensures slot.None? ==> unchanged(this)
      ensures slot.Some? ==>
                var total, waste := TotalFor(payload), ringBytes - old(head);
                && slot.value == (if total <= waste then old(head) else 0)
                && slot.value in headers && headers[slot.value].size == total
                && used == old(used) + (if total <= waste then [] else [Extent(old(head), waste)])
                                     + [Extent(slot.value, total)]
      ensures slot.Some? ==>
                (Consistent(ringBytes, head, tail, freeBytes, headers, used)
                 && HEADER + payload <= headers[slot.value].size
                 <==> old(AllocSound(payload)))
      ensures slot.Some? ==>
                var total, waste := TotalFor(payload), ringBytes - old(head);
                headers == if total <= waste then Stamp(old(headers), slot.value, total)
                           else WrapHeaders(old(headers), old(head), waste, total)
    {
      hide Consistent, Stamp, WrapHeaders, TotalFor;
      Bounds(ringBytes, head, tail, freeBytes, headers, used);
      var total := TotalFor(payload);
      if freeBytes < total { return None; }
      var remaining := ringBytes - head;
      if total <= remaining {
        slot := Some(head);
        FitsAtHead(ringBytes, head, tail, freeBytes, headers, used, payload);
        headers := Stamp(headers, head, total);
        used := used + [Extent(head, total)];
        head := (head + total) % ringBytes;
        freeBytes := freeBytes - total;
        return;
      }
      var waste := remaining;
      if freeBytes < (waste + total) % TWO32 { return None; }
      WrapsAround(ringBytes, head, tail, freeBytes, headers, used, payload);
      if waste >= HEADER {
        headers := headers[head := Header(waste, true, false)];
      }
      used := used + [Extent(head, waste)] + [Extent(0, total)];
      freeBytes := (freeBytes - waste - total) % TWO32;
      slot := Some(0);
      headers := Stamp(headers, 0, total);
      assert headers == WrapHeaders(old(headers), old(head), waste, total) by { WrapUnfold(old(headers), old(head), waste, total); }
      head := total;
    }

    /**
     Reclaims, then places a task in a fresh slot unless the bytes not used by the
     rest refuse it.  On a grant the task joins the ring behind every task not yet
     destroyed, and the ring stays consistent if and only if AllocSound held before
     the call.
     */
    method Emplace(payload: nat) returns (slot: Option<nat>, ghost rest: seq<Extent>)
      requires Valid() && 0 < payload < TWO32
      modifies this
      ensures Follows(old(used), old(headers), rest) && Sum(rest) <= ringBytes
      ensures slot.None? <==> Refused(ringBytes, old(head), ringBytes - Sum(rest), TotalFor(payload))
      ensures slot.None? ==> Valid() && pushed == old(pushed) && head == old(head) && used == rest
      ensures slot.Some? ==>
                && slot.value == old(Where(payload)) && used == rest + old(Taken(payload))
                && slot.value in headers && headers[slot.value] == Header(TotalFor(payload), false, true)
                && pushed == old(pushed) + [slot.value]
                && (Valid() && HEADER + payload <= headers[slot.value].size <==> old(AllocSound(payload)))
    {
      hide Consistent, TotalFor, Tasks, Sum, Follows, Retired, Refused;
      Bounds(ringBytes, head, tail, freeBytes, headers, used);
      ghost var n := Reclaim();
      ghost var freed, gone := freeBytes - old(freeBytes), destroyed[|old(destroyed)|..];
      rest := used;
      RetiredFollows(old(used), old(headers), used, freed, gone, n);
      FreeBytes(ringBytes, head, tail, freeBytes, headers, used);
      slot := Place(payload);
    }

    /** What a call for the payload adds to the extents, if it is granted. */
    ghost function Taken(payload: nat): seq<Extent>
      reads this
      requires head <= ringBytes
    {
      Wasted(payload) + [Extent(Where(payload), TotalFor(payload))]
    }

    /** Where a slot for the payload goes. */
    function Where(payload: nat): nat
      reads this
      requires head <= ringBytes
    {
      if TotalFor(payload) <= ringBytes - head then head else 0
    }

    method Place(payload: nat) returns (slot: Option<nat>)
      requires Valid() && payload < TWO32
      modifies this
      ensures slot.None? <==> old(AllocRefuses(payload))
      ensures slot.None? ==> unchanged(this)
      ensures used == old(used) + if slot.None? then [] else old(Taken(payload))
      ensures slot.Some? ==>
                && slot.value == old(Where(payload))
                && slot.value in headers && headers[slot.value] == Header(TotalFor(payload), false, true)
                && pushed == old(pushed) + [slot.value]
                && (Valid() && HEADER + payload <= headers[slot.value].size <==> old(AllocSound(payload)))
    {
      hide Consistent, Stamp, WrapHeaders, TotalFor, Tasks, Sum;
      Bounds(ringBytes, head, tail, freeBytes, headers, used);
      slot := Alloc(payload);
      if slot.None? { return; }
      ghost var stamped := headers;
      headers := headers[slot.value := Header(headers[slot.value].size, false, true)];
      pushed := pushed + [slot.value];
      Restamp(ringBytes, head, tail, freeBytes, stamped, used, slot.value, headers[slot.value]);
      if Consistent(ringBytes, head, tail, freeBytes, headers, used) && old(AllocSound(payload)) {
        ghost var total := TotalFor(payload);
        KeptHeaders(ringBytes, old(head), head, tail, freeBytes, old(headers), stamped, old(used), total);
        PushedLast(old(used), old(Wasted(payload)), Extent(slot.value, total), old(headers), headers);
        ReclaimableAfter(old(used), old(Wasted(payload)), Extent(slot.value, total), old(headers), headers);
      }
    }

    /** The receiver marks a slot it has run. */
    method Consume(off: nat)
      requires Valid() && off in headers
      modifies this`headers
      ensures Valid() && headers == old(headers)[off := old(headers)[off].(consumed := true)]
    {
      headers := headers[off := headers[off].(consumed := true)];
      TasksFrame(used, old(headers), headers);
      hide Consistent;
      assert forall e :: e in used ==> e.off in old(headers);
    }

    /**
     Retires the longest consumed prefix of the extents, oldest first: it stops at
     the first extent not yet consumed, destroys the tasks it passes in order and
     frees exactly their bytes.  When every task has been run the ring is left empty.
     */
    method Reclaim() returns (ghost n: nat)
      requires Valid()
      modifies this`tail, this`freeBytes, this`headers, this`used, this`destroyed
      ensures Valid() && old(destroyed) <= destroyed
      ensures Retired(old(used), old(headers), used, freeBytes - old(freeBytes), destroyed[|old(destroyed)|..], n)
      ensures used != [] ==> !headers[used[0].off].consumed
      ensures old(TasksConsumed(used, headers)) ==> used == [] && freeBytes == ringBytes
      ensures forall e :: e in used ==> headers[e.off] == old(headers)[e.off]
    {
      hide Tasks, Sum, Walk;
      n := 0;
      ghost var all, h0 := used, headers;
      HeadersOf(ringBytes, head, tail, freeBytes, headers, used);
      NothingFreed(all, h0);
      if freeBytes < ringBytes { TailThere(ringBytes, head, tail, freeBytes, headers, used); }
      while freeBytes < ringBytes && headers[tail].consumed
        invariant Valid() && (freeBytes < ringBytes ==> tail in headers)
        invariant 0 <= n <= |all| && used == all[n..]
        invariant forall e :: e in all ==> e.off in h0
        invariant AllConsumed(all[..n], h0)
        invariant freeBytes == old(freeBytes) + Sum(all[..n])
        invariant destroyed == old(destroyed) + Tasks(all[..n], h0)
        invariant forall e :: e in used ==> headers[e.off] == h0[e.off]
        decreases |used|
      {
        hide Consistent;
        PrefixStep(all, n, h0);
        RetireTail();
        assert all[..n + 1] == all[..n] + [all[n]];
        n := n + 1;
        if freeBytes < ringBytes { TailThere(ringBytes, head, tail, freeBytes, headers, used); }
      }
      EndsAtTail(ringBytes, head, tail, freeBytes, headers, used);
      hide Consistent;
      FirstConsumed(all, h0, used, headers);
      assert n < |all| ==> used[0] == all[n] && all[n] in used;
      assert destroyed[|old(destroyed)|..] == Tasks(all[..n], h0);
    }

    /** One turn of the reclaim loop. */
    method RetireTail()
      requires Valid() && freeBytes < ringBytes && headers[tail].consumed
      modifies this`tail, this`freeBytes, this`headers, this`used, this`destroyed
      ensures Valid() && old(used) != [] && old(used)[0].off == old(tail) && used == old(used)[1..]
      ensures freeBytes == old(freeBytes) + old(used)[0].size
      ensures destroyed == old(destroyed) + (if old(headers)[old(tail)].task then [old(tail)] else [])
      ensures forall e :: e in used ==> e.off in headers && headers[e.off] == old(headers)[e.off]
    {
      hide Consistent, Sum, Walk, Tasks, Cyclic;
      TailThere(ringBytes, head, tail, freeBytes, headers, used);
      var h := headers[tail];
      PopAtTail(ringBytes, head, tail, freeBytes, headers, used, h.(task := false));
      TasksFrame(used[1..], headers, headers[tail := h.(task := false)]);
      TasksHead(used, headers);
      ghost var rest := Tasks(used[1..], headers);
      assert destroyed + ([tail] + rest) == destroyed + [tail] + rest && destroyed + ([] + rest) == destroyed + rest;
      if h.task {
        destroyed := destroyed + [tail];
      }
      ReclaimableRest(used, headers, used[1..], headers[tail := h.(task := false)]);
      headers := headers[tail := h.(task := false)];
      freeBytes := freeBytes + h.size;
      tail := (tail + h.size) % ringBytes;
      used := used[1..];
    }

    /** The destructor destroys every task still in the ring, in order, consumed or not. */
    method Destroy()
      requires Valid()
      modifies this`tail, this`freeBytes, this`used, this`destroyed
      ensures freeBytes == ringBytes && used == []
      ensures destroyed == pushed
    {
      while freeBytes < ringBytes
        invariant Valid()
        decreases |used|
      {
        TailThere(ringBytes, head, tail, freeBytes, headers, used);
        var h := headers[tail];
        PopAtTail(ringBytes, head, tail, freeBytes, headers, used, h);
        if h.task { destroyed := destroyed + [tail]; }
        assert headers[tail := h] == headers;
        hide Consistent;
        ReclaimableRest(used, headers, used[1..], headers);
        tail := (tail + h.size) % ringBytes;
        freeBytes := freeBytes + h.size;
        used := used[1..];
      }
    }
  }

  lemma SmallRing(q: SendQueue)
    requires q.Valid() && 144 <= q.ringBytes < 160
    ensures q.ringBytes == 144 && TotalFor(1) == 64
  {
  }

  lemma OneLive(q: SendQueue, off: nat)
    requires q.Valid() && q.ringBytes == 144 && q.used == [Extent(off, 64)] && off < 80
    ensures q.head == off + 64 && q.freeBytes == 80
  {
    SumOne(Extent(off, 64));
    assert q.used[1..] == [];
    assert Walk(144, Cyclic(144, off + 64), [], q.head);
  }

  lemma TwoLive(q: SendQueue)
    requires q.Valid() && q.ringBytes == 144 && q.used == [Extent(0, 64), Extent(64, 64)]
    ensures q.head == 128 && 0 in q.headers
  {
    assert q.used[1..] == [Extent(64, 64)] && q.used[1..][1..] == [];
    assert Walk(144, 64, [Extent(64, 64)], q.head);
    assert Walk(144, 128, [], q.head);
    assert q.used[0] in q.used;
  }

  method TwoTasks() returns (q: SendQueue)
    ensures fresh(q) && q.Valid() && q.ringBytes == 144 && q.used == [Extent(0, 64), Extent(64, 64)]
    ensures 64 in q.headers && !q.headers[64].consumed
  {
    hide Tasks, Sum, Consistent, Walk, Follows;
    q := new SendQueue(144);
    assert q.ringBytes == 144 && TotalFor(1) == 64 by { SmallRing(q); }
    hide TotalFor;
    label none:
    var first, none := q.Emplace(1);
    FollowsNothing(old@none(q.headers), none);
    SumNone();
    OneLive(q, 0);
    label one:
    var second, live := q.Emplace(1);
    FollowsLive(Extent(0, 64), old@one(q.headers), live);
    SumOne(Extent(0, 64));
  }

  /**
   The skipped sentinel: two tasks, the first consumed and reclaimed, and a third
   slot that wraps over the 16 bytes left at the end of the ring, too few for a
   sentinel.  Reclaim will later look for a header at 128 where none was written.
   */
  method ReachSkippedSentinel() returns (q: SendQueue)
    ensures q.ringBytes == 144 && q.used == [Extent(64, 64), Extent(128, 16), Extent(0, 64)]
    ensures !(128 in q.headers && q.headers[128].size == 16)
    ensures !Consistent(q.ringBytes, q.head, q.tail, q.freeBytes, q.headers, q.used)
  {
    hide Tasks, Sum, Consistent, Walk, Retired;
    q := TwoTasks();
    TwoLive(q);
    q.Consume(0);
    label marked:
    ghost var n := q.Reclaim();
    RetiredFirst(Extent(0, 64), Extent(64, 64), old@marked(q.headers), q.used, q.freeBytes - old@marked(q.freeBytes),
                 q.destroyed[|old@marked(q.destroyed)|..], n);
    OneLive(q, 64);
    assert TotalFor(1) == 64;
    SizesOf(q.ringBytes, q.head, q.tail, q.freeBytes, q.headers, q.used);
    var third := q.Alloc(1);
  }

  lemma OneTask(q: SendQueue)
    requires q.Valid() && q.ringBytes == 144 && q.used == []
    ensures q.freeBytes == 144
    ensures q.head == 64 ==> q.AllocRefuses(48) && TotalFor(48) == 96
  {
  }

  /**
   An empty ring that refuses: one task placed, run and reclaimed, and then a task
   of 48 octets, for which hasSpace says there is room.
   */
  method EmptyRingRefuses() returns (q: SendQueue, space: bool, slot: Option<nat>)
    ensures q.Valid() && q.ringBytes == 144 && q.used == [] && space && slot.None?
  {
    hide Tasks, Sum, Consistent, Walk, Follows, Retired;
    q := new SendQueue(144);
    assert q.ringBytes == 144 && TotalFor(1) == 64 by { SmallRing(q); }
    label none:
    var first, none := q.Emplace(1);
    FollowsNothing(old@none(q.headers), none);
    SumNone();
    OneLive(q, 0);
    q.Consume(0);
    ghost var n := q.Reclaim();
    assert q.used == [];
    OneTask(q);
    space := q.HasSpace(48);
    label empty:
    ghost var rest;
    slot, rest := q.Emplace(48);
    FollowsNothing(old@empty(q.headers), rest);
  }
}
