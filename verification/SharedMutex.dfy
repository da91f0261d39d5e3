/**
 fiber_shared_mutex with each call as one step.  The counters and queues are the
 source's; ghost fields record which fibers hold the lock and how often the
 writer at the head of the queue has been overtaken by a batch of readers.
 */
module SharedMutex {
  import opened Common

  class SharedMutex {
    var readers: int
    var writer: bool
    var writerQueue: seq<nat>
    var readerQueue: seq<nat>

    ghost var exclusive: Option<nat>
    ghost var shared: multiset<nat>
    /** Batches admitted since the current head of the writer queue got there. */
    ghost var overtaken: nat

    ghost predicate Valid()
      reads this
    {
      // the counters describe the holders, and a writer holds alone
      && (writer <==> exclusive.Some?)
      && readers == |shared|
      && !(writer && readers > 0)
      // whoever is queued waits for a present holder
      && (writerQueue != [] ==> writer || readers > 0)
      && (readerQueue != [] ==> writer || writerQueue != [])
      // the writer queued first is overtaken by at most one batch, and then only until that batch is done
      && overtaken <= 1
      && (overtaken == 1 ==> !writer && writerQueue != [])
    }

    constructor ()
      ensures Valid() && exclusive == None && shared == multiset{} && writerQueue == [] && readerQueue == []
    {
      readers, writer, writerQueue, readerQueue := 0, false, [], [];
      exclusive, shared, overtaken := None, multiset{}, 0;
    }

    /** lock(): granted exactly when nobody holds the lock; otherwise queued last, the holders untouched. */
    method Lock(self: nat) returns (granted: bool)
      requires Valid()
      modifies this
      ensures Valid()
      ensures granted <==> old(exclusive).None? && old(shared) == multiset{}
      ensures granted ==> exclusive == Some(self) && writerQueue == old(writerQueue) == []
      ensures !granted ==> exclusive == old(exclusive) && writerQueue == old(writerQueue) + [self]
      ensures shared == old(shared) && readerQueue == old(readerQueue)
      ensures overtaken == old(overtaken)
    {
      if !writer && readers == 0 && writerQueue == [] {
        writer := true;
        exclusive := Some(self);
        granted := true;
      } else {
        writerQueue := writerQueue + [self];
        granted := false;
      }
    }

    /**
     unlock(): admits every queued reader at once, or else the writer queued first,
     or leaves the lock free when nobody is queued.
     */
    method Unlock(self: nat) returns (woken: seq<nat>)
      requires Valid() && exclusive == Some(self)
      modifies this
      ensures Valid()
      ensures old(readerQueue) != [] ==>
                && woken == old(readerQueue) && exclusive.None? && shared == multiset(woken)
                && readerQueue == [] && writerQueue == old(writerQueue)
                && overtaken == if writerQueue == [] then 0 else 1
      ensures old(readerQueue) == [] && old(writerQueue) != [] ==>
                && woken == [old(writerQueue)[0]] && exclusive == Some(woken[0]) && shared == multiset{}
                && writerQueue == old(writerQueue)[1..] && readerQueue == []
      ensures old(readerQueue) == [] && old(writerQueue) == [] ==>
                woken == [] && exclusive.None? && shared == multiset{} && writerQueue == [] && readerQueue == []
    {
      writer := false;
      exclusive := None;
      woken := [];
      if readerQueue != [] {
        var queued := readerQueue;
        readerQueue := [];
        if writerQueue != [] { overtaken := overtaken + 1; }
        woken := AdmitAll(queued);
      } else if writerQueue != [] {
        woken := [writerQueue[0]];
        exclusive := Some(writerQueue[0]);
        writerQueue := writerQueue[1..];
        writer := true;
        overtaken := 0;
      }
    }

    /** The loop of unlock() over the readers it has taken. */
    method AdmitAll(taken: seq<nat>) returns (woken: seq<nat>)
      requires readers == |shared| == 0
      modifies this`readers, this`shared
      ensures woken == taken && readers == |taken| && shared == multiset(taken)
    {
      woken := [];
      var queued := taken;
      while queued != []
        invariant woken + queued == taken
        invariant readers == |woken| && shared == multiset(woken)
        decreases |queued|
      {
        readers := readers + 1;
        shared := shared + multiset{queued[0]};
        woken := woken + [queued[0]];
        queued := queued[1..];
      }
    }

    /** lock_shared(): admits nobody while a writer holds or is queued; otherwise joins the readers. */
    method LockShared(self: nat) returns (granted: bool)
      requires Valid()
      modifies this
      ensures Valid()
      ensures granted <==> old(exclusive).None? && old(writerQueue) == []
      ensures granted ==> shared == old(shared) + multiset{self} && readerQueue == old(readerQueue)
      ensures !granted ==> shared == old(shared) && readerQueue == old(readerQueue) + [self]
      ensures exclusive == old(exclusive) && writerQueue == old(writerQueue) && overtaken == old(overtaken)
    {
      if !writer && writerQueue == [] {
        readers := readers + 1;
        shared := shared + multiset{self};
        granted := true;
      } else {
        readerQueue := readerQueue + [self];
        granted := false;
      }
    }

    /** unlock_shared(): the last reader out hands the lock to the writer queued first. */
    method UnlockShared(self: nat) returns (woken: seq<nat>)
      requires Valid() && self in shared
      modifies this
      ensures Valid()
      ensures shared == old(shared) - multiset{self} && readerQueue == old(readerQueue)
      ensures if shared == multiset{} && old(writerQueue) != []
              then woken == [old(writerQueue)[0]] && exclusive == Some(woken[0]) && writerQueue == old(writerQueue)[1..]
              else woken == [] && exclusive.None? && writerQueue == old(writerQueue) && overtaken == old(overtaken)
    {
      woken := [];
      var prev := readers;
      readers := readers - 1;
      shared := shared - multiset{self};
      if prev == 1 && readers == 0 && writerQueue != [] {
        woken := [writerQueue[0]];
        exclusive := Some(writerQueue[0]);
        writerQueue := writerQueue[1..];
        writer := true;
        overtaken := 0;
      }
    }

    /** try_lock(): succeeds exactly when nobody holds the lock, and then nobody is queued either. */
    method TryLock(self: nat) returns (granted: bool)
      requires Valid()
      modifies this
      ensures Valid()
      ensures granted <==> old(exclusive).None? && old(shared) == multiset{}
      ensures granted ==> exclusive == Some(self) && writerQueue == [] && readerQueue == []
      ensures !granted ==> exclusive == old(exclusive)
      ensures shared == old(shared) && writerQueue == old(writerQueue) && readerQueue == old(readerQueue)
      ensures overtaken == old(overtaken)
    {
      granted := !writer && readers == 0;
      if granted {
        writer := true;
        exclusive := Some(self);
      }
    }

    /** try_lock_shared(): looks at the writer flag only, so it also joins past a queued writer. */
    method TryLockShared(self: nat) returns (granted: bool)
      requires Valid()
      modifies this
      ensures Valid()
      ensures granted <==> old(exclusive).None?
      ensures shared == if granted then old(shared) + multiset{self} else old(shared)
      ensures exclusive == old(exclusive) && writerQueue == old(writerQueue) && readerQueue == old(readerQueue)
      ensures overtaken == old(overtaken)
    {
      granted := !writer;
      if granted {
        readers := readers + 1;
        shared := shared + multiset{self};
      }
    }
  }
}
