/**
 Who wakes the fibers queued at a fiber_shared_mutex, in every interleaving of its
 atomic steps: when somebody inside or on the way will look at the queues, which
 step leaves them with nobody, and what can free them afterwards.
 */
module SharedWakes {
  import opened Common
  import opened SharedSteps

  /** Inside as a writer, about to be, or about to make one: will take the queued readers. */
  predicate Readies(p: Pc) {
    Writes(p) || p.UIn? || p.WStore? || p.UStore? || p.SStore?
  }

  /** Will look at the queues, or let somebody in who will. */
  predicate Minds(p: Pc) {
    Readies(p) || p.SWant? || p.SIn? || p.UOut? || p.UWake? || (p.UBatch? && p.left != [])
  }

  ghost predicate NobodyMinds(s: State) {
    forall f: nat :: !Minds(s.At(f))
  }

  ghost predicate AnyReadies(s: State) {
    exists f: nat :: Readies(s.At(f))
  }

  /** Fibers are queued, and nobody is counted, inside, or on the way to the queues. */
  ghost predicate Stranded(s: State) {
    (s.writerQueue != [] || s.readerQueue != []) && s.readers == 0 && NobodyMinds(s)
  }

  /** The last one counted undoes its addition, or a writer queues, with nobody on the way to the queues. */
  ghost predicate Abandons(s: State, a: Action) {
    && a.Go? && NobodyMinds(s)
    && ((s.At(a.f).RUndo? && s.readers == 1 && s.writerQueue != []) || (s.At(a.f).WQueue? && s.readers == 0))
  }

  // ------------------------------------------------------------- what runs keep

  /** The flag is set only with a writer inside; readers queue behind a writer; a reader that adds itself saw no writer queued. */
  ghost predicate Followed(s: State) {
    && (s.writer ==> AnyWriter(s))
    && (s.readerQueue != [] ==> s.writerQueue != [] || AnyReadies(s))
    && (forall f: nat :: s.At(f).RInAdd? ==> s.writerQueue == [])
  }

  lemma ReaderOwn(s: State, t: State, f: nat)
    requires ReaderStep(s, f) == Some(t)
    ensures !Minds(s.At(f)) && !Minds(t.At(f)) && t.writer == s.writer && t.writerQueue == s.writerQueue
    ensures t.readerQueue == s.readerQueue || (t.readerQueue == s.readerQueue + [f] && (s.writer || s.writerQueue != []))
    ensures t.readers == s.readers || t.readers == s.readers + 1 || (s.At(f).RUndo? && t.readers == s.readers - 1)
    ensures t.At(f).RInAdd? ==> t.writerQueue == []
  {
  }

  lemma LeaverOwn(s: State, t: State, f: nat)
    requires LeaverStep(s, f) == Some(t)
    ensures t.writer == s.writer && t.readerQueue == s.readerQueue && !t.At(f).RInAdd? && !Readies(s.At(f))
    ensures t.writerQueue == s.writerQueue || (HasLock(s.At(f)) && t.At(f).SStore?)
    ensures || Minds(t.At(f))
            || (s.At(f).SSub? && s.readers != 1 && t.readers == s.readers - 1)
            || (s.At(f).SIn? && t.readers == s.readers && (s.readers != 0 || s.writerQueue == []))
  {
  }

  lemma WriterOwn(s: State, t: State, f: nat)
    requires WriterStep(s, f) == Some(t)
    ensures !t.At(f).RInAdd? && t.readers == s.readers
    ensures t.writerQueue == s.writerQueue || HasLock(s.At(f))
    ensures || Minds(t.At(f))
            || (s.At(f).WQueue? && t.writerQueue == s.writerQueue + [f] && t.readerQueue == s.readerQueue)
            || (t.writerQueue == s.writerQueue && t.readerQueue == s.readerQueue
                && (Minds(s.At(f)) ==> s.writerQueue == [] && s.readerQueue == []))
  {
  }

  lemma WriterFlag(s: State, t: State, f: nat)
    requires WriterStep(s, f) == Some(t)
    ensures t.writer ==> s.writer || Writes(t.At(f))
    ensures Writes(s.At(f)) ==> Writes(t.At(f)) || !t.writer
    ensures t.readerQueue == [] || t.readerQueue == s.readerQueue
    ensures Readies(s.At(f)) ==> Readies(t.At(f)) || t.readerQueue == []
    ensures t.writerQueue == s.writerQueue || t.writerQueue == s.writerQueue + [f] || Readies(t.At(f))
  {
  }

  lemma CallOwn(s: State, t: State, a: Action)
    requires !a.Go? && Next(s, a) == Some(t)
    ensures t.writer == s.writer && t.readers == s.readers
    ensures t.writerQueue == s.writerQueue && t.readerQueue == s.readerQueue
    ensures Minds(t.At(a.f)) == Minds(s.At(a.f)) && Readies(t.At(a.f)) == Readies(s.At(a.f))
    ensures Writes(t.At(a.f)) == Writes(s.At(a.f)) && !t.At(a.f).RInAdd?
  {
  }

  /** A hand-over leaves the queues alone and somebody in charge, or admits a reader. */
  lemma HandOwn(s: State, t: State, f: nat)
    requires Queues(s) && HandStep(s, f) == Some(t)
    ensures t.writerQueue == s.writerQueue && t.readerQueue == s.readerQueue && !t.At(f).RInAdd? && !Writes(s.At(f))
    ensures if s.At(f).UBatch? then t.readers == s.readers + 1 && t.writer == s.writer && !Readies(s.At(f)) else AnyWriter(t)
  {
    hide Queues;
    OtherIsParked(s, f);
    var n := Other(s.At(f)).value;
    if !s.At(f).UBatch? {
      assert Writes(t.At(n));
    }
  }

  lemma BroughtMinds(p: Pc, q: Pc)
    requires Brought(p, q)
    ensures (Writes(p) ==> Writes(q)) && (Readies(p) ==> Readies(q)) && (Minds(p) ==> Minds(q))
    ensures (q.RInAdd? ==> p.RInAdd?) && (q.WQueue? <==> p.WQueue?) && (q.SWant? <==> p.SWant?) && (Rescues(q) ==> Rescues(p))
  {
  }

  lemma OthersMind(s: State, t: State, a: Action, g: nat)
    requires Base(s) && Next(s, a) == Some(t) && g != a.f
    ensures (Writes(s.At(g)) ==> Writes(t.At(g))) && (Readies(s.At(g)) ==> Readies(t.At(g)))
    ensures (Minds(s.At(g)) ==> Minds(t.At(g))) && (t.At(g).RInAdd? ==> s.At(g).RInAdd?)
    ensures (t.At(g).WQueue? <==> s.At(g).WQueue?) && (t.At(g).SWant? <==> s.At(g).SWant?) && (Rescues(t.At(g)) ==> Rescues(s.At(g)))
  {
    hide Base, Next, Brought, Writes, Readies, Minds, Rescues;
    OthersStay(s, t, a, g);
    BroughtMinds(s.At(g), t.At(g));
  }

  /** Past every look that would send it to a queue: try_lock, try_lock_shared, and a fast path about to add. */
  predicate Rescues(p: Pc) {
    p == WWant(true) || p == WIn(true) || p == RLook(true) || p.RAdd?
  }

  /** The writer that had the flag set is still inside, unless it is the one that clears it. */
  lemma WriterRemains(s: State, t: State, a: Action)
    requires Base(s) && Next(s, a) == Some(t) && AnyWriter(s) && (Writes(s.At(a.f)) ==> Writes(t.At(a.f)))
    ensures AnyWriter(t)
  {
    hide Base, Next, Writes, Readies, Minds, Rescues;
    var g: nat :| Writes(s.At(g));
    if g != a.f {
      OthersMind(s, t, a, g);
    }
    assert Writes(t.At(g));
  }

  lemma ReadiesRemains(s: State, t: State, a: Action)
    requires Base(s) && Next(s, a) == Some(t) && AnyReadies(s) && (Readies(s.At(a.f)) ==> Readies(t.At(a.f)))
    ensures AnyReadies(t)
  {
    hide Base, Next, Writes, Readies, Minds, Rescues;
    var g: nat :| Readies(s.At(g));
    if g != a.f {
      OthersMind(s, t, a, g);
    }
    assert Readies(t.At(g));
  }

  lemma WriterReadies(s: State)
    requires AnyWriter(s)
    ensures AnyReadies(s)
  {
    var g: nat :| Writes(s.At(g));
    assert Readies(s.At(g));
  }

  /** The fiber that reads the queue empty before adding itself has the queue lock, so nobody queues meanwhile. */
  lemma AddsAlone(s: State, t: State, a: Action)
    requires Base(s) && Followed(s) && Next(s, a) == Some(t)
    requires t.writerQueue == s.writerQueue || HasLock(s.At(a.f))
    requires t.At(a.f).RInAdd? ==> t.writerQueue == []
    ensures forall g: nat :: t.At(g).RInAdd? ==> t.writerQueue == []
  {
    hide Queues, LockInv, Next, Writes, Readies, Minds, Rescues;
    forall g: nat | t.At(g).RInAdd?
      ensures t.writerQueue == []
    {
      if g != a.f {
        OthersMind(s, t, a, g);
        LockAt(s, g);
        LockAt(s, a.f);
        assert s.writerQueue == [] && HasLock(s.At(g));
      }
    }
  }

  lemma CallFollowed(s: State, t: State, a: Action)
    requires Base(s) && Followed(s) && !a.Go? && Next(s, a) == Some(t)
    ensures Followed(t)
  {
    CallOwn(s, t, a);
    hide Base, Next, AnyWriter, AnyReadies, Writes, Readies, Minds, Rescues;
    AddsAlone(s, t, a);
    if s.writer { WriterRemains(s, t, a); }
    if AnyReadies(s) { ReadiesRemains(s, t, a); }
  }

  lemma ReaderFollowed(s: State, t: State, f: nat)
    requires Base(s) && Followed(s) && ReaderStep(s, f) == Some(t)
    ensures Followed(t)
  {
    ReaderOwn(s, t, f);
    assert Next(s, Go(f)) == Some(t);
    assert !Writes(s.At(f)) && !Readies(s.At(f));
    hide Base, Next, ReaderStep, AnyWriter, AnyReadies, Writes, Readies, Minds, Rescues;
    AddsAlone(s, t, Go(f));
    if s.writer { WriterRemains(s, t, Go(f)); WriterReadies(t); }
    if AnyReadies(s) { ReadiesRemains(s, t, Go(f)); }
  }

  lemma LeaverFollowed(s: State, t: State, f: nat)
    requires Base(s) && Followed(s) && Instruction(s, f) == Some(t) && LeaverStep(s, f) == Some(t)
    ensures Followed(t)
  {
    LeaverOwn(s, t, f);
    assert Next(s, Go(f)) == Some(t) && !Writes(s.At(f));
    assert t.At(f).SStore? ==> AnyReadies(t);
    hide Base, Next, Instruction, LeaverStep, AnyWriter, AnyReadies, Writes, Readies, Minds, Rescues;
    AddsAlone(s, t, Go(f));
    if s.writer { WriterRemains(s, t, Go(f)); }
    if AnyReadies(s) { ReadiesRemains(s, t, Go(f)); }
  }

  lemma WriterFollowed(s: State, t: State, f: nat)
    requires Base(s) && Followed(s) && Instruction(s, f) == Some(t) && WriterStep(s, f) == Some(t)
    ensures Followed(t)
  {
    WriterOwn(s, t, f);
    WriterFlag(s, t, f);
    assert Next(s, Go(f)) == Some(t);
    assert (Writes(t.At(f)) ==> AnyWriter(t)) && (Readies(t.At(f)) ==> AnyReadies(t));
    hide Base, Next, Instruction, WriterStep, AnyWriter, AnyReadies, Writes, Readies, Minds, Rescues;
    AddsAlone(s, t, Go(f));
    if t.writer && s.writer { WriterRemains(s, t, Go(f)); }
    if t.readerQueue != [] && AnyReadies(s) { ReadiesRemains(s, t, Go(f)); }
  }

  lemma HandFollowed(s: State, t: State, f: nat)
    requires Base(s) && Followed(s) && Instruction(s, f) == Some(t) && HandStep(s, f) == Some(t)
    ensures Followed(t)
  {
    HandOwn(s, t, f);
    assert Next(s, Go(f)) == Some(t);
    hide Base, Next, Instruction, HandStep, AnyWriter, AnyReadies, Writes, Readies, Minds, Rescues;
    AddsAlone(s, t, Go(f));
    if AnyWriter(t) { WriterReadies(t); }
    if s.At(f).UBatch? {
      if s.writer { WriterRemains(s, t, Go(f)); }
      if AnyReadies(s) { ReadiesRemains(s, t, Go(f)); }
    }
  }

  lemma StepKeepsFollowed(s: State, t: State, a: Action)
    requires Base(s) && Followed(s) && Next(s, a) == Some(t)
    ensures Followed(t)
  {
    hide Base, Followed, ReaderStep, LeaverStep, WriterStep, HandStep;
    if !a.Go? {
      CallFollowed(s, t, a);
    } else if ReaderStep(s, a.f).Some? {
      ReaderFollowed(s, t, a.f);
    } else if LeaverStep(s, a.f).Some? {
      LeaverFollowed(s, t, a.f);
    } else if WriterStep(s, a.f).Some? {
      WriterFollowed(s, t, a.f);
    } else {
      HandFollowed(s, t, a.f);
    }
  }

  lemma {:induction false} RunKeepsFollowed(states: seq<State>, actions: seq<Action>, i: nat)
    requires IsRun(states, actions) && i < |states|
    ensures Followed(states[i])
  {
    hide Next, Base;
    if i > 0 {
      hide Followed;
      RunKeepsFollowed(states, actions, i - 1);
      RunKeepsBase(states, actions, i - 1);
      StepKeepsFollowed(states[i - 1], states[i], actions[i - 1]);
    }
  }

  // ----------------------------------------------------- the step that strands

  /** Nobody minded before a step after which nobody minds, but for the fiber that took it. */
  lemma MindedBefore(s: State, t: State, a: Action)
    requires Base(s) && Next(s, a) == Some(t) && NobodyMinds(t) && !Minds(s.At(a.f))
    ensures NobodyMinds(s)
  {
    hide Base, Next, Writes, Readies, Minds, Rescues;
    forall g: nat
      ensures !Minds(s.At(g))
    {
      if g != a.f {
        OthersMind(s, t, a, g);
      }
    }
  }

  /** With nobody minding, readers queue only behind a writer, and the flag is clear. */
  lemma Unminded(s: State)
    requires Followed(s) && NobodyMinds(s)
    ensures !s.writer && (s.readerQueue != [] ==> s.writerQueue != [])
  {
  }

  lemma ReaderStrands(s: State, t: State, f: nat)
    requires Base(s) && Followed(s) && s.readers >= 0 && ReaderStep(s, f) == Some(t) && Stranded(t) && !Stranded(s)
    ensures Abandons(s, Go(f))
  {
    ReaderOwn(s, t, f);
    assert Next(s, Go(f)) == Some(t);
    hide Base, Next, ReaderStep, Minds, NobodyMinds;
    MindedBefore(s, t, Go(f));
    Unminded(s);
  }

  lemma LeaverStrands(s: State, t: State, f: nat)
    requires Base(s) && Followed(s) && Instruction(s, f) == Some(t) && LeaverStep(s, f) == Some(t)
    ensures !Stranded(t)
  {
    LeaverOwn(s, t, f);
    assert Next(s, Go(f)) == Some(t);
    if Stranded(t) {
      assert !Minds(t.At(f));
      hide Base, Next, Instruction, LeaverStep;
      assert s.writerQueue == [] && AnyReadies(s);
      ReadiesRemains(s, t, Go(f));
    }
  }

  lemma WriterStrands(s: State, t: State, f: nat)
    requires Base(s) && Instruction(s, f) == Some(t) && WriterStep(s, f) == Some(t) && Stranded(t) && !Stranded(s)
    ensures Abandons(s, Go(f))
  {
    WriterOwn(s, t, f);
    assert Next(s, Go(f)) == Some(t);
    assert !Minds(t.At(f)) && !Minds(s.At(f));
    hide Base, Next, Instruction, WriterStep, Minds, NobodyMinds;
    MindedBefore(s, t, Go(f));
  }

  lemma HandStrands(s: State, t: State, f: nat)
    requires Base(s) && s.readers >= 0 && HandStep(s, f) == Some(t)
    ensures !Stranded(t)
  {
    HandOwn(s, t, f);
    hide Base, HandStep;
  }

  lemma CallStrands(s: State, t: State, a: Action)
    requires Base(s) && !a.Go? && Next(s, a) == Some(t) && Stranded(t)
    ensures Stranded(s)
  {
    CallOwn(s, t, a);
    assert !Minds(s.At(a.f));
    hide Base, Next, Minds, NobodyMinds;
    MindedBefore(s, t, a);
  }

  /** Only a step that abandons the queues leads to a state where they are stranded. */
  lemma StrandStep(s: State, t: State, a: Action)
    requires Base(s) && Followed(s) && s.readers >= 0 && Next(s, a) == Some(t) && Stranded(t) && !Stranded(s)
    ensures Abandons(s, a)
  {
    hide Base, Followed, Stranded, Abandons, ReaderStep, LeaverStep, WriterStep, HandStep;
    if !a.Go? {
      CallStrands(s, t, a);
    } else if ReaderStep(s, a.f).Some? {
      ReaderStrands(s, t, a.f);
    } else if LeaverStep(s, a.f).Some? {
      LeaverStrands(s, t, a.f);
    } else if WriterStep(s, a.f).Some? {
      WriterStrands(s, t, a.f);
    } else {
      HandStrands(s, t, a.f);
    }
  }

  /** And every such step does. */
  lemma AbandonsStrands(s: State, t: State, a: Action)
    requires Abandons(s, a) && Next(s, a) == Some(t)
    ensures Stranded(t)
  {
    var f := a.f;
    assert t.pc == s.pc[f := t.At(f)] && !Minds(t.At(f));
    hide Next, Minds;
    forall g: nat
      ensures !Minds(t.At(g))
    {
      assert g != f ==> t.At(g) == s.At(g);
    }
  }

  /**
   Queued fibers are stranded at some point of a run exactly when a step of the
   run abandons them.
   */
  lemma StrandedIff(states: seq<State>, actions: seq<Action>)
    requires IsRun(states, actions)
    ensures (exists i :: 0 <= i < |states| && Stranded(states[i])) <==>
            (exists j :: 0 <= j < |actions| && Abandons(states[j], actions[j]))
  {
    hide Next, Stranded, Abandons;
    if j :| 0 <= j < |actions| && Abandons(states[j], actions[j]) {
      AbandonsStrands(states[j], states[j + 1], actions[j]);
    }
    if i :| 0 <= i < |states| && Stranded(states[i]) {
      var j := FirstStranded(states, actions, i);
    }
  }

  lemma {:induction false} FirstStranded(states: seq<State>, actions: seq<Action>, i: nat) returns (j: nat)
    requires IsRun(states, actions) && i < |states| && Stranded(states[i])
    ensures j < i && Abandons(states[j], actions[j]) && !Stranded(states[j])
  {
    hide Next, Base, Followed, Abandons, Counted;
    if i == 0 {
      assert false;
    } else if Stranded(states[i - 1]) {
      j := FirstStranded(states, actions, i - 1);
    } else {
      j := i - 1;
      RunKeepsBase(states, actions, j);
      RunKeepsFollowed(states, actions, j);
      RunKeepsCount(states, actions, j);
      StrandStep(states[j], states[i], actions[j]);
    }
  }

  // ------------------------------------------------------ what is at the bottom of it

  /** A fiber that was counted for a moment takes the count to zero, and looks at no queue. */
  predicate UndoesLast(s: State, a: Action) {
    a.Go? && s.At(a.f).RUndo? && s.readers == 1
  }

  /** While a fiber is about to append itself, having seen somebody counted, the count goes to zero by an undo or leaves its last reader waiting for the queue lock. */
  lemma {:induction false} CountGone(states: seq<State>, actions: seq<Action>, k: nat, m: nat, f: nat)
    requires IsRun(states, actions) && k < m < |states| && states[k + 1].readers > 0
    requires forall i :: k < i <= m ==> states[i].At(f).WQueue?
    ensures states[m].readers > 0 || (exists g: nat :: states[m].At(g).SWant?)
         || (exists i :: k < i < m && UndoesLast(states[i], actions[i]))
    decreases m
  {
    hide Next, Base;
    if m > k + 1 {
      var s, t, a := states[m - 1], states[m], actions[m - 1];
      CountGone(states, actions, k, m - 1, f);
      RunKeepsBase(states, actions, m - 1);
      RunKeepsCount(states, actions, m);
      if g: nat :| s.At(g).SWant? {
        StillWants(s, t, a, f, g);
      } else if s.readers > 0 && !UndoesLast(s, a) {
        LastLeaves(s, t, a);
      }
    }
  }

  /** The queue lock is taken, so a fiber that waits for it goes on waiting. */
  lemma StillWants(s: State, t: State, a: Action, f: nat, g: nat)
    requires Base(s) && Next(s, a) == Some(t) && s.At(f).WQueue? && s.At(g).SWant?
    ensures t.At(g).SWant?
  {
    LockAt(s, f);
    if a.f == g {
      SpinsOn(s, a);
    } else {
      hide Base, Next;
      OthersMind(s, t, a, g);
    }
  }

  lemma SpinsOn(s: State, a: Action)
    requires s.At(a.f).SWant? && s.queueLock.Some?
    ensures Next(s, a) == None
  {
  }

  /** Only the last reader's subtraction takes the count to zero otherwise, and it then waits for the queue lock. */
  lemma LastLeaves(s: State, t: State, a: Action)
    requires Base(s) && Next(s, a) == Some(t) && s.readers > 0 && !UndoesLast(s, a)
    ensures t.readers > 0 || t.At(a.f).SWant?
  {
    hide Base, ReaderStep, LeaverStep, WriterStep, HandStep;
    if !a.Go? {
      CallOwn(s, t, a);
    } else if ReaderStep(s, a.f).Some? {
      ReaderOwn(s, t, a.f);
    } else if LeaverStep(s, a.f).Some? {
      LeaverCounts(s, t, a.f);
    } else if WriterStep(s, a.f).Some? {
      WriterOwn(s, t, a.f);
    } else {
      HandReaders(s, t, a.f);
    }
  }

  lemma LeaverCounts(s: State, t: State, f: nat)
    requires LeaverStep(s, f) == Some(t) && s.readers > 0
    ensures t.readers > 0 || t.At(f).SWant?
  {
  }

  lemma HandReaders(s: State, t: State, f: nat)
    requires HandStep(s, f) == Some(t)
    ensures t.readers >= s.readers
  {
  }

  /** The flag and the writer queue change only under the queue lock. */
  lemma Protected(s: State, t: State, a: Action)
    requires Base(s) && Next(s, a) == Some(t)
    ensures (t.writer == s.writer && t.writerQueue == s.writerQueue) || HasLock(s.At(a.f))
  {
    hide Base, ReaderStep, LeaverStep, WriterStep, HandStep, HasLock;
    if !a.Go? {
      CallOwn(s, t, a);
    } else if ReaderStep(s, a.f).Some? {
      ReaderOwn(s, t, a.f);
    } else if LeaverStep(s, a.f).Some? {
      LeaverOwn(s, t, a.f);
    } else if WriterStep(s, a.f).Some? {
      WriterLocked(s, t, a.f);
    } else {
      HandLocked(s, t, a.f);
    }
  }

  lemma WriterLocked(s: State, t: State, f: nat)
    requires WriterStep(s, f) == Some(t)
    ensures (t.writer == s.writer && t.writerQueue == s.writerQueue) || HasLock(s.At(f))
  {
  }

  lemma HandLocked(s: State, t: State, f: nat)
    requires HandStep(s, f) == Some(t)
    ensures (t.writer == s.writer && t.writerQueue == s.writerQueue) || HasLock(s.At(f))
  {
  }

  /** A writer about to append itself looked before, and saw the flag and the queue as they still are. */
  lemma {:induction false} LookBeforeQueue(states: seq<State>, actions: seq<Action>, j: nat, f: nat) returns (k: nat)
    requires IsRun(states, actions) && j < |states| && states[j].At(f).WQueue?
    ensures k < j && states[k].At(f) == WIn(false) && states[k + 1].readers == states[k].readers
    ensures states[j].writer == states[k].writer && states[j].writerQueue == states[k].writerQueue
    ensures states[k].writer || states[k].readers != 0 || states[k].writerQueue != []
    ensures forall m :: k < m <= j ==> states[m].At(f).WQueue?
  {
    hide Base, Next;
    assert j > 0;
    var s, t, a := states[j - 1], states[j], actions[j - 1];
    RunKeepsBase(states, actions, j - 1);
    if s.At(f).WQueue? {
      k := LookBeforeQueue(states, actions, j - 1, f);
      QueueStays(s, t, a, f);
    } else {
      k := j - 1;
      if a.f != f {
        OthersMind(s, t, a, f);
      } else {
        QueueLook(s, t, a);
      }
    }
  }

  lemma QueueStays(s: State, t: State, a: Action, f: nat)
    requires Base(s) && Next(s, a) == Some(t) && s.At(f).WQueue? && t.At(f).WQueue?
    ensures t.writer == s.writer && t.writerQueue == s.writerQueue
  {
    Protected(s, t, a);
    LockAt(s, f);
    LockAt(s, a.f);
  }

  lemma QueueLook(s: State, t: State, a: Action)
    requires Next(s, a) == Some(t) && t.At(a.f).WQueue? && !s.At(a.f).WQueue?
    ensures s.At(a.f) == WIn(false) && t.readers == s.readers && t.writer == s.writer && t.writerQueue == s.writerQueue
    ensures s.writer || s.readers != 0 || s.writerQueue != []
  {
    hide ReaderStep, LeaverStep, WriterStep, HandStep;
    if a.Go? {
      if ReaderStep(s, a.f).Some? || LeaverStep(s, a.f).Some? {
        ReaderNoQueue(s, t, a.f);
      } else if WriterStep(s, a.f).Some? {
        WriterLook(s, t, a.f);
      } else {
        HandNoQueue(s, t, a.f);
      }
    }
  }

  lemma ReaderNoQueue(s: State, t: State, f: nat)
    requires ReaderStep(s, f) == Some(t) || LeaverStep(s, f) == Some(t)
    ensures !t.At(f).WQueue?
  {
  }

  lemma HandNoQueue(s: State, t: State, f: nat)
    requires HandStep(s, f) == Some(t)
    ensures !t.At(f).WQueue?
  {
  }

  lemma WriterLook(s: State, t: State, f: nat)
    requires WriterStep(s, f) == Some(t) && t.At(f).WQueue?
    ensures s.At(f) == WIn(false) && t.readers == s.readers && t.writer == s.writer && t.writerQueue == s.writerQueue
    ensures s.writer || s.readers != 0 || s.writerQueue != []
  {
  }

  /** No run strands its queued fibers without a fiber that, counted for a moment, undoes its addition as the last one counted. */
  lemma UndoAtBottom(states: seq<State>, actions: seq<Action>, i: nat) returns (m: nat)
    requires IsRun(states, actions) && i < |states| && Stranded(states[i])
    ensures m < i && UndoesLast(states[m], actions[m])
  {
    hide Next, Base;
    var j := FirstStranded(states, actions, i);
    var f := actions[j].f;
    if states[j].At(f).RUndo? {
      m := j;
    } else {
      var k := LookBeforeQueue(states, actions, j, f);
      RunKeepsFollowed(states, actions, j);
      RunKeepsCount(states, actions, k);
      Unminded(states[j]);
      CountGone(states, actions, k, j, f);
      NobodyWants(states[j]);
      m :| k < m < j && UndoesLast(states[m], actions[m]);
    }
  }

  lemma NobodyWants(s: State)
    requires NobodyMinds(s)
    ensures !exists g: nat :: s.At(g).SWant?
  {
  }

  // -------------------------------------------------------------- no way out

  /** Stranded, with nobody on the way in past the looks at the writer queue. */
  ghost predicate Stuck(s: State) {
    Stranded(s) && forall f: nat :: !Rescues(s.At(f))
  }

  predicate Tries(a: Action) {
    a.CallTryLock? || a.CallTryLockShared?
  }

  lemma OwnStuck(s: State, t: State, a: Action)
    requires Next(s, a) == Some(t) && !Tries(a) && !Minds(s.At(a.f)) && !Rescues(s.At(a.f)) && !Counts(s.At(a.f))
    requires !s.At(a.f).RInAdd? && !s.writer && s.writerQueue != []
    ensures t.pc == s.pc[a.f := t.At(a.f)] && !Minds(t.At(a.f)) && !Rescues(t.At(a.f)) && t.readers == s.readers
    ensures s.writerQueue <= t.writerQueue && s.readerQueue <= t.readerQueue
  {
    if !a.Go? {
      CallStuck(s, t, a);
    } else {
      hide Next;
      GoStuck(s, t, a.f);
    }
  }

  lemma CallStuck(s: State, t: State, a: Action)
    requires !a.Go? && Next(s, a) == Some(t) && !Tries(a) && !Minds(s.At(a.f)) && !Counts(s.At(a.f))
    ensures t == s.Goto(a.f, t.At(a.f)) && !Minds(t.At(a.f)) && !Rescues(t.At(a.f))
  {
  }

  lemma GoStuck(s: State, t: State, f: nat)
    requires Instruction(s, f) == Some(t) && !Minds(s.At(f)) && !Rescues(s.At(f)) && !Counts(s.At(f))
    requires !s.At(f).RInAdd? && !s.writer && s.writerQueue != []
    ensures t.pc == s.pc[f := t.At(f)] && !Minds(t.At(f)) && !Rescues(t.At(f)) && t.readers == s.readers
    ensures s.writerQueue <= t.writerQueue && s.readerQueue <= t.readerQueue
  {
  }

  /** Nothing but a new call of try_lock or try_lock_shared changes that: every other fiber queues behind. */
  lemma StuckStep(s: State, t: State, a: Action)
    requires Base(s) && Followed(s) && s.readers == |Counted(s)| && Stuck(s) && Next(s, a) == Some(t) && !Tries(a)
    ensures Stuck(t) && s.writerQueue <= t.writerQueue && s.readerQueue <= t.readerQueue
  {
    hide Base, Next;
    var f := a.f;
    Unminded(s);
    assert !Counts(s.At(f)) by { NotCounted(s, f); }
    OwnStuck(s, t, a);
    hide Minds, Rescues;
    forall g: nat
      ensures !Minds(t.At(g)) && !Rescues(t.At(g))
    {
      assert g != f ==> t.At(g) == s.At(g);
    }
  }

  lemma NotCounted(s: State, f: nat)
    requires |Counted(s)| == 0
    ensures !Counts(s.At(f))
  {
    assert Counted(s) == {};
    if f in s.pc {
      assert f !in Counted(s);
    }
  }

  /**
   From there on, as long as nobody calls try_lock or try_lock_shared, the queues
   only grow: every fiber in them stays where it is.
   */
  lemma {:induction false} StuckForGood(states: seq<State>, actions: seq<Action>, i: nat, n: nat)
    requires IsRun(states, actions) && i <= n < |states| && Stuck(states[i])
    requires forall k :: i <= k < n ==> !Tries(actions[k])
    ensures Stuck(states[n])
    ensures states[i].writerQueue <= states[n].writerQueue && states[i].readerQueue <= states[n].readerQueue
    decreases n
  {
    hide Next, Base, Followed, Counted, Stuck, Tries;
    if i < n {
      StuckForGood(states, actions, i, n - 1);
      RunKeepsBase(states, actions, n - 1);
      RunKeepsFollowed(states, actions, n - 1);
      RunKeepsCount(states, actions, n - 1);
      StuckStep(states[n - 1], states[n], actions[n - 1]);
    }
  }

  lemma ReachableFollowed(s: State)
    requires Reachable(s)
    ensures Followed(s)
  {
    hide Next, Followed;
    var states: seq<State>, actions: seq<Action> :| IsRun(states, actions) && states[|states| - 1] == s;
    RunKeepsFollowed(states, actions, |states| - 1);
  }

  /** A fiber alone goes through try_lock when the flag is clear and nobody is counted, whoever is queued. */
  lemma TryTakes(s: State, f: nat) returns (t: State)
    requires Reachable(s) && s.At(f) == Idle && s.queueLock.None? && !s.writer && s.readers == 0
    ensures Reachable(t) && t == s.(writer := true).Goto(f, Exclusive)
  {
    hide Reachable;
    var u := s.Goto(f, WWant(true));
    Reach(s, CallTryLock(f), u);
    var v := u.(queueLock := Some(f)).Goto(f, WIn(true));
    Reach(u, Go(f), v);
    var w := v.Goto(f, WStore(true));
    Reach(v, Go(f), w);
    t := TryStores(w, f);
    assert t.pc == s.pc[f := Exclusive];
  }

  lemma TryStores(s: State, f: nat) returns (t: State)
    requires Reachable(s) && s.At(f) == WStore(true) && s.queueLock == Some(f)
    ensures Reachable(t) && t == s.(writer := true).Leave(f, Exclusive)
  {
    hide Reachable;
    var x := s.(writer := true).Goto(f, WOut(true));
    Reach(s, Go(f), x);
    t := x.Leave(f, Exclusive);
    Reach(x, Go(f), t);
    assert t.pc == s.pc[f := Exclusive];
  }

  /** A try_lock and its unlock take the queued readers, or else the writer queued first. */
  lemma TryLockFrees(s: State, f: nat) returns (t: State)
    requires Reachable(s) && Stuck(s) && s.queueLock.None? && s.At(f) == Idle
    ensures Reachable(t)
    ensures if s.readerQueue != [] then t.readerQueue == [] && t.At(f) == UBatch(s.readerQueue)
            else s.writerQueue != [] && t.writerQueue == s.writerQueue[1..] && t.At(f) == UStore(s.writerQueue[0])
  {
    hide Reachable, Minds, Rescues, Followed;
    ReachableFollowed(s);
    Unminded(s);
    var u := TryTakes(s, f);
    var v := ClearsFlag(u, f);
    t := Looked(v, f);
    Reach(v, Go(f), t);
  }

  function Looked(s: State, f: nat): State
    requires s.writerQueue != []
  {
    if s.readerQueue != [] then s.(readerQueue := []).Leave(f, UBatch(s.readerQueue))
    else s.(writerQueue := s.writerQueue[1..]).Goto(f, UStore(s.writerQueue[0]))
  }

  /** A try_lock_shared and its unlock take the writer queued first. */
  lemma TryLockSharedFrees(s: State, f: nat) returns (t: State)
    requires Reachable(s) && Stuck(s) && s.queueLock.None? && s.At(f) == Idle
    ensures Reachable(t) && s.writerQueue != []
    ensures t.writerQueue == s.writerQueue[1..] && t.At(f) == SStore(s.writerQueue[0])
  {
    hide Reachable, Minds, Rescues, Followed;
    ReachableFollowed(s);
    Unminded(s);
    var u := TryShares(s, f);
    var v := LastReaderLeaves(u, f);
    var w := v.(queueLock := Some(f)).Goto(f, SIn);
    Reach(v, Go(f), w);
    t := w.(writerQueue := s.writerQueue[1..]).Goto(f, SStore(s.writerQueue[0]));
    Reach(w, Go(f), t);
  }

  lemma TryShares(s: State, f: nat) returns (t: State)
    requires Reachable(s) && s.At(f) == Idle && !s.writer
    ensures Reachable(t) && t == s.(readers := s.readers + 1).Goto(f, Shared)
  {
    hide Reachable;
    var u := s.Goto(f, RLook(true));
    Reach(s, CallTryLockShared(f), u);
    var v := u.Goto(f, RAdd(true));
    Reach(u, Go(f), v);
    var w := v.(readers := s.readers + 1).Goto(f, RRecheck(true));
    Reach(v, Go(f), w);
    t := w.Goto(f, Shared);
    Reach(w, Go(f), t);
    assert t.pc == s.pc[f := Shared];
  }

  /**
   A writer queues because of a reader that was counted for a moment, and nobody
   wakes it: the lock is free, everybody is parked or gone, and both queues are
   not empty.
   */
  lemma ParkedForGood() returns (s: State)
    ensures Reachable(s) && !s.writer && s.readers == 0 && s.queueLock.None?
    ensures s.writerQueue == [3] && s.readerQueue == [2]
    ensures Stuck(s) && forall f: nat :: Instruction(s, f).None?
  {
    hide Reachable, Minds, Rescues, Instruction;
    var w := CountedForAMoment();
    s := UndoesUnseen(w);
    assert s.pc == map[1 := Idle, 2 := RParked, 3 := WParked];
    NothingMoves(s);
  }

  lemma CountedForAMoment() returns (w: State)
    ensures Reachable(w) && w == State(map[1 := Exclusive, 2 := RUndo(false)], true, 1, [], [], None)
  {
    hide Reachable;
    ReachStart();
    var t := ReaderArrives(Start, 2);
    var u := TakesWriter(t, 1);
    var v := u.(readers := 1).Goto(2, RRecheck(false));
    Reach(u, Go(2), v);
    w := v.Goto(2, RUndo(false));
    Reach(v, Go(2), w);
    assert w.pc == map[1 := Exclusive, 2 := RUndo(false)];
  }

  lemma UndoesUnseen(w: State) returns (s: State)
    requires Reachable(w) && w.At(1) == Exclusive && w.At(2) == RUndo(false) && w.At(3) == Idle && w.queueLock.None?
    requires w.readers == 1 && w.readerQueue == [] && w.writerQueue == []
    ensures Reachable(s) && s == State(w.pc[1 := Idle][2 := RParked][3 := WParked], false, 0, [3], [2], None)
  {
    hide Reachable;
    var x := ClearsFlag(w, 1);
    var y := x.Leave(1, Idle);
    Reach(x, Go(1), y);
    var z := QueuesWriter(y, 3);
    var r := z.(readers := 0).Goto(2, RWant);
    Reach(z, Go(2), r);
    s := QueuesReader(r, 2);
    assert s.pc == w.pc[1 := Idle][2 := RParked][3 := WParked];
  }

  lemma NothingMoves(s: State)
    requires forall f: nat :: s.At(f).Idle? || s.At(f).RParked? || s.At(f).WParked?
    ensures forall f: nat :: Instruction(s, f).None? && !Minds(s.At(f)) && !Rescues(s.At(f))
  {
    forall f: nat
      ensures Instruction(s, f).None? && !Minds(s.At(f)) && !Rescues(s.At(f))
    {
      assert s.At(f).Idle? || s.At(f).RParked? || s.At(f).WParked?;
    }
  }
}
