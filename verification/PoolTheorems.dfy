/** What the thread pool guarantees in every reachable state and over every run. */
module PoolTheorems {
  import opened Common
  import opened JobSpec
  import opened PoolMachine
  import opened PoolInvariant
  import opened PoolSteps

  /** Each mutex has one thread inside; the queue mutex is nested in the pool mutex, so a
      thread that wants it always finds it free. */
  lemma MutualExclusion(s: State)
    requires Reachable(s)
    ensures forall x: Thread, y: Thread :: InPool(s, x) && InPool(s, y) ==> x == y
    ensures forall x: Thread, y: Thread :: InQueueLock(s, x) && InQueueLock(s, y) ==> x == y
    ensures forall j: JobId, x: Thread, y: Thread :: InCell(s, j, x) && InCell(s, j, y) ==> x == y
    ensures forall w: nat | w < |s.workers| && s.workers[w].WantQueue? :: s.qlock == None
    ensures forall j: JobId | j < |s.jobs| && s.jobs[j].sub == SubWantQueue :: s.qlock == None
  {
    ReachableInv(s);
    if s.qlock.Some? {
      assert InQueueLock(s, s.qlock.value) && InPool(s, s.qlock.value);
      forall x: Thread | InPool(s, x)
        ensures x == s.qlock.value
      {
        assert s.pool == Some(x);
      }
      assert forall w: nat | w < |s.workers| :: s.workers[w].WantQueue? ==> InPool(s, Worker(w));
      assert forall j: JobId | j < |s.jobs| :: s.jobs[j].sub == SubWantQueue ==> InPool(s, Submitter(j));
    }
  }

  ghost predicate CarriedByExactlyOne(s: State, j: JobId) {
    exists w: nat :: CarriedBy(s, w, j) && forall v: nat :: CarriedBy(s, v, j) ==> v == w
  }

  ghost predicate CarriedByNone(s: State, j: JobId) {
    forall v: nat :: !CarriedBy(s, v, j)
  }

  /** Exactly-once FIFO dispatch: jobs leave the queue in the order they entered it, none
      twice; a popped job is in the hands of one worker or was executed; no function runs
      twice, and none runs before its job was popped. */
  lemma FifoExactlyOnce(s: State)
    requires Reachable(s)
    ensures s.submitted == s.popped + s.queue && NoDuplicates(s.submitted)
    ensures forall j: JobId :: j in s.submitted <==> j < |s.jobs| && Enqueued(s.jobs[j].sub)
    ensures forall j: JobId | j in s.popped ::
              j < |s.jobs| && (CarriedByExactlyOne(s, j) || (CarriedByNone(s, j) && Executed(s.jobs[j])))
    ensures forall j: JobId | j < |s.jobs| && j !in s.popped :: CarriedByNone(s, j) && Pristine(s.jobs[j])
    ensures forall j: JobId | j < |s.jobs| :: |s.jobs[j].calls| <= 1
  {
    ReachableInv(s);
    forall j: JobId
      ensures j in s.submitted <==> j < |s.jobs| && Enqueued(s.jobs[j].sub)
    {
      assert j in s.submitted <==> Waiting(s, j) || Taken(s, j);
      assert j < |s.jobs| ==> PlaceOk(s, j);
    }
    forall j: JobId
      ensures j in s.popped ==> j < |s.jobs| && (CarriedByExactlyOne(s, j) || (CarriedByNone(s, j) && Executed(s.jobs[j])))
      ensures j < |s.jobs| && j !in s.popped ==> CarriedByNone(s, j) && Pristine(s.jobs[j])
      ensures j < |s.jobs| ==> |s.jobs[j].calls| <= 1
    {
      assert j in s.popped <==> Taken(s, j);
      if j < |s.jobs| {
        assert PlaceOk(s, j);
        if s.jobs[j].at.Held? {
          assert CarriedBy(s, s.jobs[j].at.holder, j);
        }
      }
    }
  }

  /** The workers that were woken and have not reacquired the pool mutex. */
  ghost function WokenWorkers(s: State): set<nat> {
    set w | 0 <= w < |s.workers| && s.workers[w] == Woken
  }

  /** No wakeup is lost although the wait is guarded by `if`: while the pool mutex is free
      and a worker sleeps, every queued job has its own woken worker on the way. */
  lemma NoLostWakeup(s: State, w: nat)
    requires Reachable(s)
    requires s.pool == None && SleepingWorker(s, w)
    ensures |s.queue| <= |WokenWorkers(s)|
  {
    ReachableInv(s);
    forall v: nat | v < |s.workers|
      ensures !HoldsPool(s.workers[v])
    {
      assert !InPool(s, Worker(v));
    }
    assert Pending(s) == WokenWorkers(s);
  }

  // ----- results -----

  /** `done` is 1, 0 or -1; it is 0 only with the value of the one call in `res`, and -1 only
      for a job without a function. */
  lemma ResultMeaning(s: State, j: JobId)
    requires Reachable(s) && j < |s.jobs|
    ensures s.jobs[j].cell.done == 1 || s.jobs[j].cell.done == 0 || s.jobs[j].cell.done == -1
    ensures s.jobs[j].cell.done == 0 ==> s.jobs[j].callable && s.jobs[j].calls == [s.jobs[j].cell.res]
    ensures s.jobs[j].cell.done == -1 ==> !s.jobs[j].callable && s.jobs[j].calls == [] && s.jobs[j].cell.res == NULL
  {
    ReachableInv(s);
    assert PlaceOk(s, j);
    if s.jobs[j].at.Held? {
      assert CarriedBy(s, s.jobs[j].at.holder, j);
    }
  }

  /** What `await` returned is what the job's function returned, and the null pointer for a
      job without a function. */
  lemma AwaitReturnsResult(s: State, a: nat)
    requires Reachable(s) && a < |s.awaits| && s.awaits[a].pc.AwReturned?
    ensures s.awaits[a].job < |s.jobs|
    ensures var job := s.jobs[s.awaits[a].job];
            if job.callable then job.calls == [s.awaits[a].pc.value] && job.cell == Cell(0, s.awaits[a].pc.value)
            else s.awaits[a].pc.value == NULL
  {
    ReachableInv(s);
    ResultMeaning(s, s.awaits[a].job);
  }

  /** From s to t the result cell and the calls of job j change only while `done` is 1. */
  predicate Freezes(s: State, t: State, j: JobId)
    requires j < |s.jobs|
  {
    && j < |t.jobs| && t.jobs[j].callable == s.jobs[j].callable
    && (s.jobs[j].cell.done != 1 ==> t.jobs[j].cell == s.jobs[j].cell && t.jobs[j].calls == s.jobs[j].calls)
  }

  lemma ExecuteFreezes(s: State, w: nat, j: JobId)
    requires CarryInv(s) && CellLockInv(s) && CanExecute(s, w) && j < |s.jobs|
    ensures Freezes(s, DoExecute(s, w), j)
  {
  }

  lemma DispatchFreezes(s: State, w: nat, j: JobId)
    requires CanDispatch(s, w) && j < |s.jobs|
    ensures Freezes(s, DoDispatch(s, w), j)
  {
  }

  lemma StepFreezes(s: State, l: Label, j: JobId)
    requires Inv(s) && Enabled(s, l) && j < |s.jobs|
    ensures Freezes(s, Apply(s, l), j)
  {
    match l
    case Dispatch(w) => DispatchFreezes(s, w, j);
    case Execute(w) => ExecuteFreezes(s, w, j);
    case RunFunction(w, v) => assert CarriedBy(s, w, s.workers[w].job);
    case SignalResult(w, woken) => assert DoSignalResult(s, w, woken).jobs == s.jobs;
    case Submit(i) => SubmitHasEffect(s, i);
    case StepAwait(a) => AwaitHasEffect(s, a);
    case _ =>
  }

  lemma {:induction false} RunFreezes(s: State, ls: seq<Label>, t: State, j: JobId)
    requires Inv(s) && Run(s, ls, t)
    requires j < |s.jobs|
    ensures Freezes(s, t, j)
    decreases |ls|
  {
    if ls != [] {
      StepFreezes(s, ls[0], j);
      StepKeepsInv(s, ls[0]);
      RunFreezes(Apply(s, ls[0]), ls[1..], t, j);
    }
  }

  /** A result, once there, never changes: `done` leaves 1 only once, and neither it nor
      `res` nor the record of calls is touched again by any later step. */
  lemma ResultIsFinal(s: State, ls: seq<Label>, t: State, j: JobId)
    requires Reachable(s) && Run(s, ls, t)
    requires j < |s.jobs|
    ensures j < |t.jobs| && t.jobs[j].callable == s.jobs[j].callable
    ensures s.jobs[j].cell.done != 1 ==> t.jobs[j].cell == s.jobs[j].cell && t.jobs[j].calls == s.jobs[j].calls
  {
    ReachableInv(s);
    RunFreezes(s, ls, t, j);
  }

  /** The worker that still has to signal holds the result mutex. */
  lemma SignalDueIsLocked(s: State, j: JobId)
    requires CellLockInv(s) && j < |s.jobs|
    ensures SignalDue(s, j) ==> s.jobs[j].lock.Some?
  {
    if SignalDue(s, j) {
      assert InCell(s, j, Worker(s.jobs[j].at.holder));
    }
  }

  /** A sole awaiter is never left asleep: once the result is there and the result mutex is
      free, whoever still sleeps shares the job with another await call that is awake. */
  lemma SoleAwaiterIsWoken(s: State, a: nat, j: JobId)
    requires Reachable(s) && j < |s.jobs|
    requires s.jobs[j].cell.done == 0 && s.jobs[j].lock == None
    requires SleepsOn(s, a, j)
    ensures exists b: nat :: b != a && AwakeOn(s, b, j)
  {
    ReachableInv(s);
    SignalDueIsLocked(s, j);
    var b: nat :| AwakeOn(s, b, j);
    assert b != a;
  }

  /** Nothing will signal the awaiters of j any more. */
  predicate NoSignalComing(s: State, j: JobId) {
    j < |s.jobs| && (!s.jobs[j].callable || (s.jobs[j].cell.done == 0 && !SignalDue(s, j)))
  }

  lemma ExecuteMakesSignalDue(s: State, w: nat, j: JobId)
    requires CarryInv(s) && CellLockInv(s) && CanExecute(s, w) && j < |s.jobs|
    ensures SignalDue(DoExecute(s, w), j) ==> SignalDue(s, j) || s.jobs[j].cell.done == 1
  {
  }

  lemma DispatchMakesNoSignalDue(s: State, w: nat, j: JobId)
    requires CanDispatch(s, w) && PoolLockInv(s) && QueueLockInv(s) && j < |s.jobs|
    ensures SignalDue(DoDispatch(s, w), j) ==> SignalDue(s, j)
  {
  }

  /** A signal becomes due only when the result is written. */
  lemma SignalDueArises(s: State, l: Label, j: JobId)
    requires Inv(s) && Enabled(s, l) && j < |s.jobs|
    ensures SignalDue(Apply(s, l), j) ==> SignalDue(s, j) || s.jobs[j].cell.done == 1
  {
    match l
    case Execute(w) => ExecuteMakesSignalDue(s, w, j);
    case Dispatch(w) => DispatchMakesNoSignalDue(s, w, j);
    case RunFunction(w, v) => RunHasEffect(s, w, v);
    case SignalResult(w, woken) => SignalHasEffect(s, w, woken);
    case Submit(i) => SubmitHasEffect(s, i);
    case StepAwait(a) => AwaitHasEffect(s, a);
    case _ =>
  }

  lemma StepLeavesAsleep(s: State, l: Label, a: nat, j: JobId)
    requires CarryInv(s) && Enabled(s, l) && l != SpuriousAwait(a)
    requires SleepsOn(s, a, j) && NoSignalComing(s, j)
    ensures SleepsOn(Apply(s, l), a, j)
  {
    match l
    case SignalResult(w, woken) =>
      assert CarriedBy(s, w, s.workers[w].job);
      assert a in woken ==> SleepsOn(s, a, s.workers[w].job);
    case Dispatch(w) => assert DoDispatch(s, w).awaits == s.awaits;
    case Execute(w) => assert DoExecute(s, w).awaits == s.awaits;
    case Submit(i) => assert DoSubmit(s, i).awaits == s.awaits;
    case StepAwait(c) => assert c != a && DoAwait(s, c).awaits == s.awaits[c := DoAwait(s, c).awaits[c]];
    case _ =>
  }

  lemma StepBringsNoSignal(s: State, l: Label, j: JobId)
    requires Inv(s) && Enabled(s, l)
    requires NoSignalComing(s, j)
    ensures NoSignalComing(Apply(s, l), j)
  {
    StepFreezes(s, l, j);
    SignalDueArises(s, l, j);
  }

  /** Without a spurious wakeup an awaiter that no signal will reach sleeps for ever. This
      is what happens on a job without a function, whose failure branch does not signal,
      and to all but one of several awaiters if the one signal wakes only one. */
  lemma {:induction false} LeftAsleep(s: State, ls: seq<Label>, t: State, a: nat, j: JobId)
    requires Inv(s) && Run(s, ls, t)
    requires SpuriousAwait(a) !in ls
    requires SleepsOn(s, a, j) && NoSignalComing(s, j)
    ensures SleepsOn(t, a, j)
    decreases |ls|
  {
    if ls != [] {
      StepLeavesAsleep(s, ls[0], a, j);
      StepBringsNoSignal(s, ls[0], j);
      StepKeepsInv(s, ls[0]);
      LeftAsleep(Apply(s, ls[0]), ls[1..], t, a, j);
    }
  }
}
