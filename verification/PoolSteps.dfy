/** Every step of the pool keeps its invariant. Each kind of step is first reduced to what
    it changes (an "effect"); the parts of the invariant are then kept by every such change. */
module PoolSteps {
  import opened Common
  import opened JobSpec
  import opened PoolMachine
  import opened PoolInvariant

  /** A thread enters or leaves a critical section together with its mutex, or does neither. */
  ghost predicate LockMove(before: bool, after: bool, m: Mutex, m': Mutex, x: Thread) {
    if before == after then m' == m
    else if after then m == None && m' == Some(x)
    else m' == None
  }

  lemma PoolLockKept(s: State, t: State, x: Thread)
    requires PoolLockInv(s)
    requires forall y: Thread | y != x :: InPool(t, y) == InPool(s, y)
    requires LockMove(InPool(s, x), InPool(t, x), s.pool, t.pool, x)
    ensures PoolLockInv(t)
  {
  }

  lemma QueueLockKept(s: State, t: State, x: Thread)
    requires QueueLockInv(s)
    requires forall y: Thread | y != x :: InQueueLock(t, y) == InQueueLock(s, y)
    requires LockMove(InQueueLock(s, x), InQueueLock(t, x), s.qlock, t.qlock, x)
    ensures QueueLockInv(t)
  {
  }

  /** Only thread x moved, and only around the cell mutex of job j. */
  lemma CellLockKept(s: State, t: State, x: Thread, j: JobId)
    requires CellLockInv(s)
    requires |s.jobs| <= |t.jobs| && j < |t.jobs|
    requires forall i: JobId | i < |t.jobs| && i != j :: if i < |s.jobs| then t.jobs[i].lock == s.jobs[i].lock else t.jobs[i].lock == None
    requires forall i: JobId, y: Thread | i != j || y != x :: InCell(t, i, y) == InCell(s, i, y)
    requires j < |s.jobs| ==> LockMove(InCell(s, j, x), InCell(t, j, x), s.jobs[j].lock, t.jobs[j].lock, x)
    requires j >= |s.jobs| ==> t.jobs[j].lock == None && InCell(t, j, x) == InCell(s, j, x)
    ensures CellLockInv(t)
  {
  }

  /** Only worker w moved. */
  ghost predicate WorkerMoved(s: State, t: State, w: nat) {
    w < |s.workers| == |t.workers| && t.workers == s.workers[w := t.workers[w]]
  }

  // ----- Dispatch without a pop -----

  ghost predicate SameData(s: State, t: State) {
    && t.queue == s.queue && t.jobs == s.jobs && t.awaits == s.awaits
    && t.submitted == s.submitted && t.popped == s.popped
  }

  ghost predicate DispatchEffect(s: State, t: State, w: nat) {
    && WorkerMoved(s, t, w)
    && SameData(s, t)
    && var oldPc := s.workers[w];
       var newPc := t.workers[w];
       && LockMove(HoldsPool(oldPc), HoldsPool(newPc), s.pool, t.pool, Worker(w))
       && LockMove(HoldsQueue(oldPc), HoldsQueue(newPc), s.qlock, t.qlock, Worker(w))
       && CellHeld(oldPc) == CellHeld(newPc) == None
       && Carries(newPc) == Carries(oldPc)
       && (Carries(oldPc).Some? ==> forall job: Job :: StageOk(oldPc, job) ==> StageOk(newPc, job))
       && BeforeSecondPop(newPc) == BeforeSecondPop(oldPc)
       && oldPc != Asleep
       && (newPc == Asleep || newPc == CallWait ==> oldPc == LeaveQueue(false, None) || oldPc == CallWait)
       && newPc != LeaveQueue(false, None)
       && (s.pool == t.pool || s.pool == Some(Worker(w)) || t.pool == Some(Worker(w)))
       && !newPc.SignalDone? && !oldPc.SignalDone?
  }

  lemma DispatchHasEffect(s: State, w: nat)
    requires CanDispatch(s, w) && !s.workers[w].InQueue?
    requires PoolLockInv(s) && QueueLockInv(s)
    ensures DispatchEffect(s, DoDispatch(s, w), w)
  {
  }

  lemma DispatchLocks(s: State, t: State, w: nat)
    requires PoolLockInv(s) && QueueLockInv(s) && CellLockInv(s)
    requires DispatchEffect(s, t, w)
    ensures PoolLockInv(t) && QueueLockInv(t) && CellLockInv(t)
  {
    PoolLockKept(s, t, Worker(w));
    QueueLockKept(s, t, Worker(w));
    forall i: JobId, y: Thread
      ensures InCell(t, i, y) == InCell(s, i, y)
    {
    }
  }

  lemma DispatchJobs(s: State, t: State, w: nat)
    requires CarryInv(s) && PlaceInv(s) && FifoInv(s)
    requires DispatchEffect(s, t, w)
    ensures CarryInv(t) && PlaceInv(t) && FifoInv(t)
  {
    forall v: nat, j: JobId
      ensures CarriedBy(t, v, j) == CarriedBy(s, v, j)
    {
    }
    forall j: JobId | j < |t.jobs|
      ensures PlaceOk(t, j)
    {
      assert PlaceOk(s, j);
    }
    forall j: JobId
      ensures Waiting(t, j) == Waiting(s, j) && Taken(t, j) == Taken(s, j)
    {
    }
  }

  lemma DispatchWakes(s: State, t: State, w: nat)
    requires WakeInv(s) && PoolLockInv(s)
    requires DispatchEffect(s, t, w)
    ensures WakeInv(t)
  {
    assert InPool(s, Worker(w)) <==> s.pool == Some(Worker(w));
    assert Pending(t) == Pending(s);
    assert Dozing(t, w) ==> Dozing(s, w);
    forall v: nat
      ensures SleepingWorker(t, v) ==> |t.queue| <= |Pending(t)| + Owed(t)
      ensures Dozing(t, v) ==> t.queue == []
    {
      assert v != w ==> SleepingWorker(t, v) == SleepingWorker(s, v) && Dozing(t, v) == Dozing(s, v);
      assert SleepingWorker(t, w) ==> Dozing(s, w);
    }
  }

  lemma DispatchResults(s: State, t: State, w: nat)
    requires AwaitInv(s) && ResultSignalInv(s)
    requires DispatchEffect(s, t, w)
    ensures AwaitInv(t) && ResultSignalInv(t)
  {
    forall a: nat, j: JobId | SleepsOn(t, a, j) && j < |t.jobs| && t.jobs[j].cell.done == 0 && !SignalDue(t, j)
      ensures exists b: nat :: AwakeOn(t, b, j)
    {
      assert SleepsOn(s, a, j) && !SignalDue(s, j);
      var b: nat :| AwakeOn(s, b, j);
      assert AwakeOn(t, b, j);
    }
  }

  // ----- the pop -----

  ghost predicate TakeEffect(s: State, t: State, w: nat) {
    && WorkerMoved(s, t, w)
    && s.workers[w].InQueue?
    && t.pool == s.pool && t.qlock == s.qlock
    && t.awaits == s.awaits && t.submitted == s.submitted
    && t.workers[w] == LeaveQueue(s.workers[w].second, Pop(s.queue).0)
    && t.queue == Pop(s.queue).1
    && if s.queue == [] then t.jobs == s.jobs && t.popped == s.popped
       else var j := s.queue[0];
            && j < |s.jobs|
            && t.popped == s.popped + [j]
            && t.jobs == s.jobs[j := s.jobs[j].(at := Held(w))]
  }

  lemma TakeHasEffect(s: State, w: nat)
    requires CanDispatch(s, w) && s.workers[w].InQueue?
    ensures TakeEffect(s, DoDispatch(s, w), w)
  {
  }

  lemma TakeLocks(s: State, t: State, w: nat)
    requires PoolLockInv(s) && QueueLockInv(s) && CellLockInv(s)
    requires TakeEffect(s, t, w)
    ensures PoolLockInv(t) && QueueLockInv(t) && CellLockInv(t)
  {
    PoolLockKept(s, t, Worker(w));
    QueueLockKept(s, t, Worker(w));
    forall i: JobId, y: Thread
      ensures InCell(t, i, y) == InCell(s, i, y)
    {
    }
  }

  lemma TakeJobs(s: State, t: State, w: nat)
    requires CarryInv(s) && PlaceInv(s) && FifoInv(s)
    requires TakeEffect(s, t, w)
    ensures CarryInv(t) && PlaceInv(t)
  {
    forall v: nat, i: JobId | CarriedBy(t, v, i)
      ensures i < |t.jobs| && t.jobs[i].at == Held(v) && StageOk(t.workers[v], t.jobs[i])
    {
      if v == w {
        assert Waiting(s, i) && PlaceOk(s, i);
      } else {
        assert CarriedBy(s, v, i);
        assert s.queue != [] ==> Waiting(s, s.queue[0]);
      }
    }
    forall i: JobId | i < |t.jobs|
      ensures PlaceOk(t, i)
    {
      assert PlaceOk(s, i);
      if s.queue != [] && i == s.queue[0] {
        assert Waiting(s, i);
      }
      assert s.workers[w].InQueue? && Carries(s.workers[w]) == None;
    }
  }

  lemma TakeFifo(s: State, t: State, w: nat)
    requires FifoInv(s)
    requires TakeEffect(s, t, w)
    ensures FifoInv(t)
  {
    if s.queue != [] {
      var j := s.queue[0];
      assert s.queue == [j] + t.queue;
      assert t.submitted == t.popped + t.queue;
      assert j !in t.queue by {
        var n := |s.popped|;
        assert s.submitted[n] == j;
        forall k | 0 <= k < |t.queue| ensures t.queue[k] != j {
          assert s.submitted[n + 1 + k] == t.queue[k];
        }
      }
      forall i: JobId
        ensures i in t.queue <==> Waiting(t, i)
        ensures i in t.popped <==> Taken(t, i)
      {
        assert Waiting(s, j);
        assert i in s.queue <==> i == j || i in t.queue;
        if i != j {
          assert Waiting(t, i) == Waiting(s, i) && Taken(t, i) == Taken(s, i);
        }
      }
    }
  }

  lemma TakeWakes(s: State, t: State, w: nat)
    requires WakeInv(s) && PoolLockInv(s)
    requires TakeEffect(s, t, w)
    ensures WakeInv(t)
  {
    assert InPool(s, Worker(w)) && s.pool == Some(Worker(w));
    assert Owed(s) == Owed(t) == 0;
    assert Pending(t) == Pending(s) - {w};
    forall v: nat
      ensures SleepingWorker(t, v) ==> |t.queue| <= |Pending(t)| + Owed(t)
      ensures Dozing(t, v) ==> t.queue == []
    {
      if v != w {
        assert SleepingWorker(t, v) == SleepingWorker(s, v) && Dozing(t, v) == Dozing(s, v);
      }
    }
  }

  lemma TakeResults(s: State, t: State, w: nat)
    requires AwaitInv(s) && ResultSignalInv(s) && FifoInv(s) && PlaceInv(s)
    requires TakeEffect(s, t, w)
    ensures AwaitInv(t) && ResultSignalInv(t)
  {
    forall a: nat, j: JobId | SleepsOn(t, a, j) && j < |t.jobs| && t.jobs[j].cell.done == 0 && !SignalDue(t, j)
      ensures exists b: nat :: AwakeOn(t, b, j)
    {
      assert PlaceOk(s, j);
      assert s.queue != [] ==> Waiting(s, s.queue[0]);
      assert SleepsOn(s, a, j) && !SignalDue(s, j);
      var b: nat :| AwakeOn(s, b, j);
      assert AwakeOn(t, b, j);
    }
  }

  lemma DispatchKeepsInv(s: State, w: nat)
    requires Inv(s) && CanDispatch(s, w)
    ensures Inv(DoDispatch(s, w))
  {
    var t := DoDispatch(s, w);
    if s.workers[w].InQueue? {
      TakeHasEffect(s, w);
      TakeLocks(s, t, w);
      TakeJobs(s, t, w);
      TakeFifo(s, t, w);
      TakeWakes(s, t, w);
      TakeResults(s, t, w);
    } else {
      DispatchHasEffect(s, w);
      DispatchLocks(s, t, w);
      DispatchJobs(s, t, w);
      DispatchWakes(s, t, w);
      DispatchResults(s, t, w);
    }
  }

  // ----- the execution of a job -----

  /** Worker w, carrying job j, moved; of the shared data only job j changed. */
  ghost predicate ExecuteEffect(s: State, t: State, w: nat, j: JobId) {
    && WorkerMoved(s, t, w)
    && Carries(s.workers[w]) == Some(j)
    && j < |s.jobs| == |t.jobs|
    && t.jobs == s.jobs[j := t.jobs[j]]
    && t.pool == s.pool && t.qlock == s.qlock && t.queue == s.queue
    && t.submitted == s.submitted && t.popped == s.popped
    && var oldPc := s.workers[w];
       var newPc := t.workers[w];
       var oldJob := s.jobs[j];
       var newJob := t.jobs[j];
       && !HoldsPool(oldPc) && !HoldsPool(newPc)
       && oldPc != Asleep && newPc != Asleep && !BeforeSecondPop(oldPc) && !BeforeSecondPop(newPc)
       && (CellHeld(oldPc).Some? ==> CellHeld(oldPc) == Some(j))
       && (CellHeld(newPc).Some? ==> CellHeld(newPc) == Some(j))
       && LockMove(CellHeld(oldPc).Some?, CellHeld(newPc).Some?, oldJob.lock, newJob.lock, Worker(w))
       && newJob.sub == oldJob.sub && newJob.callable == oldJob.callable
       && oldJob.at == Held(w)
       && (if Carries(newPc).Some? then
             Carries(newPc) == Some(j) && newJob.at == oldJob.at && StageOk(newPc, newJob)
           else
             newJob.at == Finished && Executed(newJob))
       && (newJob.cell == oldJob.cell || oldJob.cell.done == 1)
       && (newJob.cell.done == 0 && oldJob.cell.done != 0 ==> newPc == SignalDone(j))
  }

  predicate Failing(pc: WorkerPc) {
    pc.Exec? || pc.WantFail? || pc.InFail? || pc.LeaveFail?
  }

  predicate Setting(pc: WorkerPc) {
    pc.WantSet? || pc.InSet? || pc.LeaveSet?
  }

  predicate Finishing(pc: WorkerPc) {
    pc.WantDone? || pc.InDone? || pc.LeaveDone?
  }

  lemma FailHasEffect(s: State, w: nat)
    requires CanExecute(s, w) && Failing(s.workers[w])
    requires CarryInv(s) && CellLockInv(s)
    ensures ExecuteEffect(s, DoExecute(s, w), w, Carries(s.workers[w]).value)
  {
    var j := Carries(s.workers[w]).value;
    assert CarriedBy(s, w, j);
    assert InCell(s, j, Worker(w)) <==> s.jobs[j].lock == Some(Worker(w));
  }

  lemma SetHasEffect(s: State, w: nat)
    requires CanExecute(s, w) && Setting(s.workers[w])
    requires CarryInv(s) && CellLockInv(s)
    ensures ExecuteEffect(s, DoExecute(s, w), w, Carries(s.workers[w]).value)
  {
    var j := Carries(s.workers[w]).value;
    assert CarriedBy(s, w, j);
    assert InCell(s, j, Worker(w)) <==> s.jobs[j].lock == Some(Worker(w));
  }

  lemma FinishHasEffect(s: State, w: nat)
    requires CanExecute(s, w) && Finishing(s.workers[w])
    requires CarryInv(s) && CellLockInv(s)
    ensures ExecuteEffect(s, DoExecute(s, w), w, Carries(s.workers[w]).value)
  {
    var j := Carries(s.workers[w]).value;
    assert CarriedBy(s, w, j);
    assert InCell(s, j, Worker(w)) <==> s.jobs[j].lock == Some(Worker(w));
  }

  lemma ExecuteHasEffect(s: State, w: nat)
    requires CanExecute(s, w)
    requires CarryInv(s) && CellLockInv(s)
    ensures ExecuteEffect(s, DoExecute(s, w), w, Carries(s.workers[w]).value)
  {
    if Failing(s.workers[w]) {
      FailHasEffect(s, w);
    } else if Setting(s.workers[w]) {
      SetHasEffect(s, w);
    } else {
      FinishHasEffect(s, w);
    }
  }

  lemma RunHasEffect(s: State, w: nat, v: Pointer)
    requires CanRun(s, w)
    requires CarryInv(s)
    ensures ExecuteEffect(s, DoRun(s, w, v), w, s.workers[w].job)
  {
  }

  lemma SignalHasEffect(s: State, w: nat, woken: set<nat>)
    requires CanSignalResult(s, w, woken)
    requires CarryInv(s) && CellLockInv(s)
    ensures ExecuteEffect(s, DoSignalResult(s, w, woken), w, s.workers[w].job)
  {
    assert CarriedBy(s, w, s.workers[w].job);
  }

  lemma ExecuteLocks(s: State, t: State, w: nat, j: JobId)
    requires PoolLockInv(s) && QueueLockInv(s) && CellLockInv(s)
    requires ExecuteEffect(s, t, w, j)
    requires |t.awaits| == |s.awaits|
    requires forall a: nat, i: JobId :: AwaitsOn(t, a, i) && AwaitHolds(t.awaits[a].pc) <==> AwaitsOn(s, a, i) && AwaitHolds(s.awaits[a].pc)
    ensures PoolLockInv(t) && QueueLockInv(t) && CellLockInv(t)
  {
    PoolLockKept(s, t, Worker(w));
    QueueLockKept(s, t, Worker(w));
    CellLockKept(s, t, Worker(w), j);
  }

  lemma ExecuteJobs(s: State, t: State, w: nat, j: JobId)
    requires CarryInv(s) && PlaceInv(s)
    requires ExecuteEffect(s, t, w, j)
    ensures CarryInv(t) && PlaceInv(t)
  {
    forall v: nat, i: JobId | CarriedBy(t, v, i)
      ensures i < |t.jobs| && t.jobs[i].at == Held(v) && StageOk(t.workers[v], t.jobs[i])
    {
      if v != w {
        assert CarriedBy(s, v, i);
      }
    }
    forall i: JobId | i < |t.jobs|
      ensures PlaceOk(t, i)
    {
      assert PlaceOk(s, i);
      assert CarriedBy(s, w, j);
      if s.jobs[i].at.Held? && i != j {
        assert CarriedBy(s, s.jobs[i].at.holder, i);
      }
    }
  }

  lemma ExecuteFifo(s: State, t: State, w: nat, j: JobId)
    requires FifoInv(s)
    requires ExecuteEffect(s, t, w, j)
    ensures FifoInv(t)
  {
  }

  lemma ExecuteWakes(s: State, t: State, w: nat, j: JobId)
    requires WakeInv(s)
    requires ExecuteEffect(s, t, w, j)
    ensures WakeInv(t)
  {
    assert Pending(t) == Pending(s);
    forall v: nat
      ensures SleepingWorker(t, v) == SleepingWorker(s, v)
      ensures Dozing(t, v) ==> Dozing(s, v)
    {
    }
  }

  lemma ExecuteResults(s: State, t: State, w: nat, j: JobId)
    requires AwaitInv(s) && ResultSignalInv(s) && CarryInv(s)
    requires ExecuteEffect(s, t, w, j) && t.awaits == s.awaits && !s.workers[w].SignalDone?
    ensures AwaitInv(t) && ResultSignalInv(t)
  {
    assert CarriedBy(s, w, j);
    forall a: nat, i: JobId | SleepsOn(t, a, i) && i < |t.jobs| && t.jobs[i].cell.done == 0 && !SignalDue(t, i)
      ensures exists b: nat :: AwakeOn(t, b, i)
    {
      assert SleepsOn(s, a, i) && !SignalDue(s, i);
      var b: nat :| AwakeOn(s, b, i);
      assert AwakeOn(t, b, i);
    }
  }

  lemma SignalResults(s: State, w: nat, woken: set<nat>)
    requires AwaitInv(s) && ResultSignalInv(s) && CarryInv(s)
    requires CanSignalResult(s, w, woken)
    ensures var t := DoSignalResult(s, w, woken); AwaitInv(t) && ResultSignalInv(t)
  {
    var t := DoSignalResult(s, w, woken);
    var j := s.workers[w].job;
    assert CarriedBy(s, w, j);
    forall a: nat, i: JobId | SleepsOn(t, a, i) && i < |t.jobs| && t.jobs[i].cell.done == 0 && !SignalDue(t, i)
      ensures exists b: nat :: AwakeOn(t, b, i)
    {
      assert SleepsOn(s, a, i);
      if i == j {
        var b :| b in woken;
        assert SleepsOn(s, b, j);
        assert AwakeOn(t, b, i);
      } else {
        assert !SignalDue(s, i);
        var b: nat :| AwakeOn(s, b, i);
        assert AwakeOn(t, b, i);
      }
    }
  }

  lemma ExecuteKeepsInv(s: State, w: nat)
    requires Inv(s) && CanExecute(s, w)
    ensures Inv(DoExecute(s, w))
  {
    var t, j := DoExecute(s, w), Carries(s.workers[w]).value;
    ExecuteHasEffect(s, w);
    ExecuteLocks(s, t, w, j);
    ExecuteJobs(s, t, w, j);
    ExecuteFifo(s, t, w, j);
    ExecuteWakes(s, t, w, j);
    ExecuteResults(s, t, w, j);
  }

  lemma RunKeepsInv(s: State, w: nat, v: Pointer)
    requires Inv(s) && CanRun(s, w)
    ensures Inv(DoRun(s, w, v))
  {
    var t, j := DoRun(s, w, v), s.workers[w].job;
    RunHasEffect(s, w, v);
    ExecuteLocks(s, t, w, j);
    ExecuteJobs(s, t, w, j);
    ExecuteFifo(s, t, w, j);
    ExecuteWakes(s, t, w, j);
    ExecuteResults(s, t, w, j);
  }

  lemma SignalResultKeepsInv(s: State, w: nat, woken: set<nat>)
    requires Inv(s) && CanSignalResult(s, w, woken)
    ensures Inv(DoSignalResult(s, w, woken))
  {
    var t, j := DoSignalResult(s, w, woken), s.workers[w].job;
    SignalHasEffect(s, w, woken);
    ExecuteLocks(s, t, w, j);
    ExecuteJobs(s, t, w, j);
    ExecuteFifo(s, t, w, j);
    ExecuteWakes(s, t, w, j);
    SignalResults(s, w, woken);
  }

  // ----- the submitter -----

  /** Submitter j moved; of the shared data only the pool's two mutexes and queue changed. */
  ghost predicate SubmitEffect(s: State, t: State, j: JobId) {
    && j < |s.jobs| == |t.jobs|
    && t.jobs == s.jobs[j := t.jobs[j]]
    && t.workers == s.workers && t.awaits == s.awaits && t.popped == s.popped
    && var oldJob := s.jobs[j];
       var newJob := t.jobs[j];
       && newJob == oldJob.(sub := newJob.sub, at := newJob.at)
       && LockMove(SubHoldsPool(oldJob.sub), SubHoldsPool(newJob.sub), s.pool, t.pool, Submitter(j))
       && LockMove(SubHoldsQueue(oldJob.sub), SubHoldsQueue(newJob.sub), s.qlock, t.qlock, Submitter(j))
       && (if Enqueued(newJob.sub) && !Enqueued(oldJob.sub) then
             && newJob.at == Queued
             && t.queue == s.queue + [j] && t.submitted == s.submitted + [j]
             && (newJob.sub == SubLeaveQueue || newJob.sub == SubSignal)
           else
             && Enqueued(newJob.sub) == Enqueued(oldJob.sub)
             && newJob.at == oldJob.at
             && t.queue == s.queue && t.submitted == s.submitted
             && (newJob.sub == SubLeaveQueue || newJob.sub == SubSignal <==> oldJob.sub == SubLeaveQueue || oldJob.sub == SubSignal))
  }

  lemma SubmitHasEffect(s: State, j: JobId)
    requires CanSubmit(s, j)
    requires PoolLockInv(s) && QueueLockInv(s) && PlaceInv(s)
    ensures SubmitEffect(s, DoSubmit(s, j), j)
  {
  }

  lemma SubmitLocks(s: State, t: State, j: JobId)
    requires PoolLockInv(s) && QueueLockInv(s) && CellLockInv(s)
    requires SubmitEffect(s, t, j)
    ensures PoolLockInv(t) && QueueLockInv(t) && CellLockInv(t)
  {
    PoolLockKept(s, t, Submitter(j));
    QueueLockKept(s, t, Submitter(j));
    CellLockKept(s, t, Submitter(j), j);
  }

  lemma SubmitJobs(s: State, t: State, j: JobId)
    requires CarryInv(s) && PlaceInv(s)
    requires SubmitEffect(s, t, j)
    ensures CarryInv(t) && PlaceInv(t)
  {
    assert PlaceOk(s, j);
    forall v: nat, i: JobId | CarriedBy(t, v, i)
      ensures i < |t.jobs| && t.jobs[i].at == Held(v) && StageOk(t.workers[v], t.jobs[i])
    {
      assert CarriedBy(s, v, i);
    }
    forall i: JobId | i < |t.jobs|
      ensures PlaceOk(t, i)
    {
      assert PlaceOk(s, i);
      assert s.jobs[i].at.Held? ==> CarriedBy(t, s.jobs[i].at.holder, i);
    }
  }

  lemma SubmitFifo(s: State, t: State, j: JobId)
    requires FifoInv(s) && PlaceInv(s)
    requires SubmitEffect(s, t, j)
    ensures FifoInv(t)
  {
    assert PlaceOk(s, j);
    assert j in s.queue <==> Waiting(s, j);
    assert j in s.popped <==> Taken(s, j);
    forall i: JobId
      ensures i in t.queue <==> Waiting(t, i)
      ensures Taken(t, i) == Taken(s, i)
    {
      assert i in s.queue <==> Waiting(s, i);
    }
    if t.queue != s.queue {
      assert t.submitted == t.popped + t.queue;
      forall k | 0 <= k < |s.submitted|
        ensures s.submitted[k] != j
      {
        assert s.submitted[k] in s.popped || s.submitted[k] in s.queue;
      }
    }
  }

  lemma SubmitWakes(s: State, t: State, j: JobId)
    requires WakeInv(s) && PoolLockInv(s)
    requires SubmitEffect(s, t, j)
    ensures WakeInv(t)
  {
    assert Pending(t) == Pending(s);
    assert InPool(s, Submitter(j)) <==> s.pool == Some(Submitter(j));
    forall v: nat
      ensures SleepingWorker(t, v) ==> |t.queue| <= |Pending(t)| + Owed(t)
      ensures Dozing(t, v) ==> t.queue == []
    {
      assert SleepingWorker(t, v) == SleepingWorker(s, v) && Dozing(t, v) == Dozing(s, v);
      assert InPool(s, Worker(v)) <==> s.pool == Some(Worker(v));
    }
  }

  lemma SubmitResults(s: State, t: State, j: JobId)
    requires AwaitInv(s) && ResultSignalInv(s) && PlaceInv(s)
    requires SubmitEffect(s, t, j)
    ensures AwaitInv(t) && ResultSignalInv(t)
  {
    forall a: nat, i: JobId | SleepsOn(t, a, i) && i < |t.jobs| && t.jobs[i].cell.done == 0 && !SignalDue(t, i)
      ensures exists b: nat :: AwakeOn(t, b, i)
    {
      assert PlaceOk(s, i);
      assert SleepsOn(s, a, i) && !SignalDue(s, i);
      var b: nat :| AwakeOn(s, b, i);
      assert AwakeOn(t, b, i);
    }
  }

  lemma SubmitKeepsInv(s: State, j: JobId)
    requires Inv(s) && CanSubmit(s, j)
    ensures Inv(DoSubmit(s, j))
  {
    var t := DoSubmit(s, j);
    SubmitHasEffect(s, j);
    SubmitLocks(s, t, j);
    SubmitJobs(s, t, j);
    SubmitFifo(s, t, j);
    SubmitWakes(s, t, j);
    SubmitResults(s, t, j);
  }

  // ----- workers woken up, by a signal or spuriously -----

  /** The sleeping workers in `woken` were woken; the job of submitter j may have passed its signal. */
  ghost predicate WakeEffect(s: State, t: State, woken: set<nat>) {
    && |t.workers| == |s.workers|
    && (forall w | w in woken :: SleepingWorker(s, w))
    && (forall w | 0 <= w < |t.workers| :: t.workers[w] == if w in woken then Woken else s.workers[w])
    && t.pool == s.pool && t.qlock == s.qlock && t.queue == s.queue
    && t.awaits == s.awaits && t.submitted == s.submitted && t.popped == s.popped
    && |t.jobs| == |s.jobs|
    && forall j | 0 <= j < |t.jobs| ::
         t.jobs[j] == if s.jobs[j].sub == SubSignal && t.jobs[j] != s.jobs[j] then s.jobs[j].(sub := SubRelease) else s.jobs[j]
  }

  lemma WakeLocks(s: State, t: State, woken: set<nat>)
    requires PoolLockInv(s) && QueueLockInv(s) && CellLockInv(s)
    requires WakeEffect(s, t, woken)
    ensures PoolLockInv(t) && QueueLockInv(t) && CellLockInv(t)
  {
    forall x: Thread, i: JobId
      ensures InPool(t, x) == InPool(s, x) && InQueueLock(t, x) == InQueueLock(s, x)
      ensures InCell(t, i, x) == InCell(s, i, x)
    {
      assert x.Worker? && x.w in woken ==> SleepingWorker(s, x.w);
    }
  }

  lemma WakeJobs(s: State, t: State, woken: set<nat>)
    requires CarryInv(s) && PlaceInv(s)
    requires WakeEffect(s, t, woken)
    ensures CarryInv(t) && PlaceInv(t)
  {
    forall v: nat, i: JobId
      ensures CarriedBy(t, v, i) == CarriedBy(s, v, i)
      ensures CarriedBy(s, v, i) ==> t.workers[v] == s.workers[v]
    {
      assert v in woken ==> SleepingWorker(s, v);
    }
    forall i: JobId | i < |t.jobs|
      ensures PlaceOk(t, i)
    {
      assert PlaceOk(s, i);
    }
  }

  lemma WakeFifo(s: State, t: State, woken: set<nat>)
    requires FifoInv(s)
    requires WakeEffect(s, t, woken)
    ensures FifoInv(t)
  {
  }

  lemma WakeResults(s: State, t: State, woken: set<nat>)
    requires AwaitInv(s) && ResultSignalInv(s)
    requires WakeEffect(s, t, woken)
    ensures AwaitInv(t) && ResultSignalInv(t)
  {
    forall a: nat, i: JobId | SleepsOn(t, a, i) && i < |t.jobs| && t.jobs[i].cell.done == 0 && !SignalDue(t, i)
      ensures exists b: nat :: AwakeOn(t, b, i)
    {
      assert SignalDue(s, i) ==> s.jobs[i].at.holder !in woken by {
        assert s.jobs[i].at.Held? && s.jobs[i].at.holder in woken ==> SleepingWorker(s, s.jobs[i].at.holder);
      }
      assert SleepsOn(s, a, i) && !SignalDue(s, i);
      var b: nat :| AwakeOn(s, b, i);
      assert AwakeOn(t, b, i);
    }
  }

  lemma WakeCounts(s: State, t: State, woken: set<nat>)
    requires WakeEffect(s, t, woken)
    ensures |Pending(t)| == |Pending(s)| + |woken|
  {
    forall w | w in woken
      ensures w in Pending(t) && w !in Pending(s)
    {
      assert SleepingWorker(s, w);
    }
    assert Pending(t) == Pending(s) + woken;
    assert Pending(s) !! woken;
  }

  /** A signal wakes someone whenever someone sleeps; that pays for the job just enqueued. */
  lemma WakeWakes(s: State, t: State, woken: set<nat>)
    requires WakeInv(s)
    requires WakeEffect(s, t, woken)
    requires Owed(t) == Owed(s) || ((exists w: nat :: SleepingWorker(s, w)) ==> woken != {})
    ensures WakeInv(t)
  {
    WakeCounts(s, t, woken);
    forall v: nat
      ensures SleepingWorker(t, v) ==> SleepingWorker(s, v)
      ensures Dozing(t, v) ==> Dozing(s, v)
    {
    }
    if v: nat :| SleepingWorker(t, v) {
      assert SleepingWorker(s, v);
      assert woken != {} ==> |woken| >= 1;
    }
  }

  lemma SignalPoolKeepsInv(s: State, j: JobId, woken: set<nat>)
    requires Inv(s) && CanSignalPool(s, j, woken)
    ensures Inv(DoSignalPool(s, j, woken))
  {
    var t := DoSignalPool(s, j, woken);
    assert WakeEffect(s, t, woken);
    WakeLocks(s, t, woken);
    WakeJobs(s, t, woken);
    WakeFifo(s, t, woken);
    WakeResults(s, t, woken);
    WakeWakes(s, t, woken);
  }

  lemma SpuriousWorkerKeepsInv(s: State, w: nat)
    requires Inv(s) && SleepingWorker(s, w)
    ensures Inv(MoveWorker(s, w, Woken))
  {
    var t := MoveWorker(s, w, Woken);
    WakeLocks(s, t, {w});
    WakeJobs(s, t, {w});
    WakeFifo(s, t, {w});
    WakeResults(s, t, {w});
    WakeWakes(s, t, {w});
  }

  // ----- awaiters -----

  /** Awaiter a moved; of the shared data only the mutex of its job changed. */
  ghost predicate AwaitEffect(s: State, t: State, a: nat) {
    && a < |s.awaits| == |t.awaits|
    && t.awaits == s.awaits[a := t.awaits[a]]
    && var j := s.awaits[a].job;
       && t.awaits[a].job == j
       && j < |s.jobs| == |t.jobs|
       && t.jobs == s.jobs[j := s.jobs[j].(lock := t.jobs[j].lock)]
       && t == s.(awaits := t.awaits, jobs := t.jobs)
       && LockMove(AwaitHolds(s.awaits[a].pc), AwaitHolds(t.awaits[a].pc), s.jobs[j].lock, t.jobs[j].lock, Awaiter(a))
       && AwaitOk(t.awaits[a].pc, s.jobs[j].cell)
       && (t.awaits[a].pc == AwAsleep ==> s.jobs[j].cell.done > 0)
  }

  lemma AwaitHasEffect(s: State, a: nat)
    requires CanAwait(s, a)
    requires AwaitInv(s) && CellLockInv(s)
    ensures AwaitEffect(s, DoAwait(s, a), a)
  {
  }

  lemma SpuriousAwaitHasEffect(s: State, a: nat)
    requires a < |s.awaits| && s.awaits[a].pc == AwAsleep
    requires AwaitInv(s)
    ensures AwaitEffect(s, MoveAwait(s, a, AwWoken), a)
  {
  }

  lemma AwaitLocks(s: State, t: State, a: nat)
    requires PoolLockInv(s) && QueueLockInv(s) && CellLockInv(s)
    requires AwaitEffect(s, t, a)
    ensures PoolLockInv(t) && QueueLockInv(t) && CellLockInv(t)
  {
    PoolLockKept(s, t, Awaiter(a));
    QueueLockKept(s, t, Awaiter(a));
    CellLockKept(s, t, Awaiter(a), s.awaits[a].job);
  }

  lemma AwaitJobs(s: State, t: State, a: nat)
    requires CarryInv(s) && PlaceInv(s) && FifoInv(s) && WakeInv(s)
    requires AwaitEffect(s, t, a)
    ensures CarryInv(t) && PlaceInv(t) && FifoInv(t) && WakeInv(t)
  {
    assert Pending(t) == Pending(s);
    forall v: nat, i: JobId
      ensures CarriedBy(t, v, i) == CarriedBy(s, v, i)
    {
    }
    forall i: JobId
      ensures i < |t.jobs| ==> PlaceOk(t, i)
      ensures Waiting(t, i) == Waiting(s, i) && Taken(t, i) == Taken(s, i)
    {
      assert i < |s.jobs| ==> PlaceOk(s, i);
    }
    forall v: nat
      ensures SleepingWorker(t, v) == SleepingWorker(s, v) && Dozing(t, v) == Dozing(s, v)
    {
    }
  }

  lemma AwaitResults(s: State, t: State, a: nat)
    requires AwaitInv(s) && ResultSignalInv(s)
    requires AwaitEffect(s, t, a)
    ensures AwaitInv(t) && ResultSignalInv(t)
  {
    forall c: nat, i: JobId | SleepsOn(t, c, i) && i < |t.jobs| && t.jobs[i].cell.done == 0 && !SignalDue(t, i)
      ensures exists b: nat :: AwakeOn(t, b, i)
    {
      assert SleepsOn(s, c, i) && !SignalDue(s, i);
      var b: nat :| AwakeOn(s, b, i);
      assert AwakeOn(t, b, i);
    }
  }

  lemma AwaitKeepsInv(s: State, t: State, a: nat)
    requires Inv(s) && AwaitEffect(s, t, a)
    ensures Inv(t)
  {
    AwaitLocks(s, t, a);
    AwaitJobs(s, t, a);
    AwaitResults(s, t, a);
  }

  // ----- new calls of add_work and await -----

  lemma AddWorkLocks(s: State, t: State, callable: bool)
    requires PoolLockInv(s) && QueueLockInv(s) && CellLockInv(s)
    requires t == Apply(s, AddWork(callable))
    ensures PoolLockInv(t) && QueueLockInv(t) && CellLockInv(t)
  {
    var x := Submitter(|s.jobs|);
    PoolLockKept(s, t, x);
    QueueLockKept(s, t, x);
    CellLockKept(s, t, x, |s.jobs|);
  }

  lemma AddWorkJobs(s: State, t: State, callable: bool)
    requires CarryInv(s) && PlaceInv(s) && FifoInv(s)
    requires t == Apply(s, AddWork(callable))
    ensures CarryInv(t) && PlaceInv(t) && FifoInv(t)
  {
    forall v: nat, i: JobId
      ensures CarriedBy(t, v, i) == CarriedBy(s, v, i)
    {
    }
    forall i: JobId
      ensures i < |t.jobs| ==> PlaceOk(t, i)
      ensures Waiting(t, i) == Waiting(s, i) && Taken(t, i) == Taken(s, i)
    {
      assert i < |s.jobs| ==> PlaceOk(s, i);
    }
  }

  lemma AddWorkWakes(s: State, t: State, callable: bool)
    requires WakeInv(s) && PoolLockInv(s) && AwaitInv(s) && ResultSignalInv(s)
    requires t == Apply(s, AddWork(callable))
    ensures WakeInv(t) && AwaitInv(t) && ResultSignalInv(t)
  {
    assert Pending(t) == Pending(s);
    assert s.pool.Some? ==> InPool(s, s.pool.value);
    forall v: nat
      ensures SleepingWorker(t, v) == SleepingWorker(s, v) && Dozing(t, v) == Dozing(s, v)
    {
    }
    forall c: nat, i: JobId | SleepsOn(t, c, i) && i < |t.jobs| && t.jobs[i].cell.done == 0 && !SignalDue(t, i)
      ensures exists b: nat :: AwakeOn(t, b, i)
    {
      assert SleepsOn(s, c, i) && !SignalDue(s, i);
      var b: nat :| AwakeOn(s, b, i);
      assert AwakeOn(t, b, i);
    }
  }

  lemma StartAwaitLocks(s: State, t: State, j: JobId)
    requires PoolLockInv(s) && QueueLockInv(s) && CellLockInv(s)
    requires Enabled(s, StartAwait(j)) && t == Apply(s, StartAwait(j))
    ensures PoolLockInv(t) && QueueLockInv(t) && CellLockInv(t)
  {
    forall x: Thread, i: JobId
      ensures InPool(t, x) == InPool(s, x) && InQueueLock(t, x) == InQueueLock(s, x)
      ensures InCell(t, i, x) == InCell(s, i, x)
    {
    }
  }

  lemma StartAwaitRest(s: State, t: State, j: JobId)
    requires CarryInv(s) && PlaceInv(s) && FifoInv(s) && WakeInv(s) && AwaitInv(s) && ResultSignalInv(s)
    requires Enabled(s, StartAwait(j)) && t == Apply(s, StartAwait(j))
    ensures CarryInv(t) && PlaceInv(t) && FifoInv(t) && WakeInv(t) && AwaitInv(t) && ResultSignalInv(t)
  {
    assert Pending(t) == Pending(s);
    forall v: nat, i: JobId
      ensures CarriedBy(t, v, i) == CarriedBy(s, v, i)
    {
    }
    forall v: nat
      ensures SleepingWorker(t, v) == SleepingWorker(s, v) && Dozing(t, v) == Dozing(s, v)
    {
    }
    forall i: JobId
      ensures i < |t.jobs| ==> PlaceOk(t, i)
      ensures Waiting(t, i) == Waiting(s, i) && Taken(t, i) == Taken(s, i)
    {
      assert i < |s.jobs| ==> PlaceOk(s, i);
    }
    forall c: nat, i: JobId | SleepsOn(t, c, i) && i < |t.jobs| && t.jobs[i].cell.done == 0 && !SignalDue(t, i)
      ensures exists b: nat :: AwakeOn(t, b, i)
    {
      assert SleepsOn(s, c, i) && !SignalDue(s, i);
      var b: nat :| AwakeOn(s, b, i);
      assert AwakeOn(t, b, i);
    }
  }

  // ----- all steps, all runs -----

  lemma StepKeepsInv(s: State, l: Label)
    requires Inv(s) && Enabled(s, l)
    ensures Inv(Apply(s, l))
  {
    match l
    case Dispatch(w) => DispatchKeepsInv(s, w);
    case Execute(w) => ExecuteKeepsInv(s, w);
    case RunFunction(w, v) => RunKeepsInv(s, w, v);
    case SignalResult(w, woken) => SignalResultKeepsInv(s, w, woken);
    case Submit(j) => SubmitKeepsInv(s, j);
    case SignalPool(j, woken) => SignalPoolKeepsInv(s, j, woken);
    case StepAwait(a) =>
      AwaitHasEffect(s, a);
      AwaitKeepsInv(s, DoAwait(s, a), a);
    case AddWork(callable) =>
      AddWorkLocks(s, Apply(s, l), callable);
      AddWorkJobs(s, Apply(s, l), callable);
      AddWorkWakes(s, Apply(s, l), callable);
    case StartAwait(j) =>
      StartAwaitLocks(s, Apply(s, l), j);
      StartAwaitRest(s, Apply(s, l), j);
    case SpuriousWorker(w) => SpuriousWorkerKeepsInv(s, w);
    case SpuriousAwait(a) =>
      SpuriousAwaitHasEffect(s, a);
      AwaitKeepsInv(s, MoveAwait(s, a, AwWoken), a);
  }

  lemma {:induction false} RunKeepsInvariant(s: State, ls: seq<Label>, t: State)
    requires Inv(s) && Run(s, ls, t)
    ensures Inv(t)
    decreases |ls|
  {
    if ls != [] {
      StepKeepsInv(s, ls[0]);
      RunKeepsInvariant(Apply(s, ls[0]), ls[1..], t);
    }
  }

  lemma ReachableInv(t: State)
    requires Reachable(t)
    ensures Inv(t)
  {
    var s, ls :| Initial(s) && Run(s, ls, t);
    InitialInv(s);
    RunKeepsInvariant(s, ls, t);
  }
}
