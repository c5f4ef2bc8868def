/** The pool drains: without new calls and spurious wakeups it always comes to rest, and at
    rest every submitted job was executed. Deadlock is excluded on the way. */
module PoolDrain {
  import opened Common
  import opened JobSpec
  import opened PoolMachine
  import opened PoolInvariant
  import opened PoolSteps
  import opened PoolTheorems

  /** Steps of threads that are already there; no new call, no spurious wakeup. */
  predicate Internal(l: Label) {
    !l.AddWork? && !l.StartAwait? && !l.SpuriousWorker? && !l.SpuriousAwait?
  }

  ghost predicate AllInternal(ls: seq<Label>) {
    forall l | l in ls :: Internal(l)
  }

  /** No thread can take a step. */
  ghost predicate Quiescent(s: State) {
    forall l: Label | Internal(l) :: !Enabled(s, l)
  }

  // ----- the measure: steps still to come -----

  const AWAKE := 5   // steps of an awaiter from its wakeup
  const ROUND := 10  // steps of a worker from its wakeup back to sleep

  function AwaitRank(pc: AwaitPc): nat {
    match pc
    case AwWant => AWAKE
    case AwWoken => AWAKE
    case AwCheck => 4
    case AwLeave => 3
    case AwRead => 2
    case AwAsleep => 0
    case AwReturned(_) => 0
  }

  /** `c` is what the awaiters can still do after the signal for a result. */
  function WorkerRank(pc: WorkerPc, c: nat): nat {
    match pc
    case Asleep => 0
    case CallWait => 1
    case LeaveQueue(second, got) => if got.Some? then 15 + c else if second then 7 else 2
    case InQueue(second) => if second then 8 else 3
    case WantQueue(second) => if second then 9 else 4
    case WantPool => 5
    case Release(got) => if got.Some? then 14 + c else 6
    case Woken => ROUND
    case Exec(_) => 13 + c
    case WantFail(_) => 8
    case InFail(_) => 7
    case LeaveFail(_) => 6
    case WantSet(_, _) => 12 + c
    case InSet(_, _) => 11 + c
    case LeaveSet(_) => 10 + c
    case WantDone(_) => 9 + c
    case InDone(_) => 8 + c
    case SignalDone(_) => 7 + c
    case LeaveDone(_) => 6
  }

  function QueueRank(c: nat): nat {
    13 + c
  }

  /** `d` is what the workers can still do after the signal for a new job. */
  function SubmitRank(pc: SubmitPc, c: nat, d: nat): nat {
    match pc
    case SubWantPool => 6 + d + QueueRank(c)
    case SubWantQueue => 5 + d + QueueRank(c)
    case SubInQueue => 4 + d + QueueRank(c)
    case SubLeaveQueue => 3 + d
    case SubSignal => 2 + d
    case SubRelease => 1
    case SubReturned => 0
  }

  function Sum(xs: seq<nat>): nat {
    if xs == [] then 0 else xs[0] + Sum(xs[1..])
  }

  function WorkerRanks(s: State): seq<nat> {
    seq(|s.workers|, w requires 0 <= w < |s.workers| => WorkerRank(s.workers[w], AWAKE * |s.awaits|))
  }

  function SubmitRanks(s: State): seq<nat> {
    seq(|s.jobs|, j requires 0 <= j < |s.jobs| => SubmitRank(s.jobs[j].sub, AWAKE * |s.awaits|, ROUND * |s.workers|))
  }

  function AwaitRanks(s: State): seq<nat> {
    seq(|s.awaits|, a requires 0 <= a < |s.awaits| => AwaitRank(s.awaits[a].pc))
  }

  function QueueWeight(s: State): nat {
    |s.queue| * QueueRank(AWAKE * |s.awaits|)
  }

  function Measure(s: State): nat {
    Sum(WorkerRanks(s)) + QueueWeight(s) + Sum(SubmitRanks(s)) + Sum(AwaitRanks(s))
  }

  lemma {:induction false} SumUpdate(xs: seq<nat>, i: nat, v: nat)
    requires i < |xs|
    ensures Sum(xs[i := v]) == Sum(xs) - xs[i] + v
  {
    if i > 0 {
      SumUpdate(xs[1..], i - 1, v);
      assert xs[i := v][1..] == xs[1..][i - 1 := v];
    }
  }

  lemma {:induction false} SumRaised(xs: seq<nat>, ys: seq<nat>, k: nat)
    requires |xs| == |ys|
    requires forall i | 0 <= i < |xs| :: ys[i] <= xs[i] + k
    ensures Sum(ys) <= Sum(xs) + k * |xs|
  {
    if xs != [] {
      SumRaised(xs[1..], ys[1..], k);
      assert k * |xs| == k + k * |xs[1..]|;
    }
  }

  lemma WorkerRanksMoved(s: State, t: State, w: nat)
    requires WorkerMoved(s, t, w) && |t.awaits| == |s.awaits|
    ensures var c := AWAKE * |s.awaits|;
            Sum(WorkerRanks(t)) == Sum(WorkerRanks(s)) - WorkerRank(s.workers[w], c) + WorkerRank(t.workers[w], c)
  {
    var r := WorkerRank(t.workers[w], AWAKE * |s.awaits|);
    SumUpdate(WorkerRanks(s), w, r);
    assert WorkerRanks(t) == WorkerRanks(s)[w := r];
  }

  lemma SubmitRanksMoved(s: State, t: State, j: JobId)
    requires j < |s.jobs| == |t.jobs| && t.jobs == s.jobs[j := t.jobs[j]]
    requires |t.awaits| == |s.awaits| && |t.workers| == |s.workers|
    ensures var c, d := AWAKE * |s.awaits|, ROUND * |s.workers|;
            Sum(SubmitRanks(t)) == Sum(SubmitRanks(s)) - SubmitRank(s.jobs[j].sub, c, d) + SubmitRank(t.jobs[j].sub, c, d)
  {
    var r := SubmitRank(t.jobs[j].sub, AWAKE * |s.awaits|, ROUND * |s.workers|);
    SumUpdate(SubmitRanks(s), j, r);
    assert SubmitRanks(t) == SubmitRanks(s)[j := r];
  }

  lemma DispatchDecreases(s: State, w: nat)
    requires CanDispatch(s, w)
    ensures Measure(DoDispatch(s, w)) < Measure(s)
  {
    var t := DoDispatch(s, w);
    WorkerRanksMoved(s, t, w);
    assert SubmitRanks(t) == SubmitRanks(s);
    assert AwaitRanks(t) == AwaitRanks(s);
    if s.workers[w].InQueue? && s.queue != [] {
      var q := QueueRank(AWAKE * |s.awaits|);
      assert |s.queue| * q == |t.queue| * q + q;
    }
  }

  lemma ExecuteRank(s: State, w: nat, c: nat)
    requires CanExecute(s, w)
    ensures WorkerRank(DoExecute(s, w).workers[w], c) < WorkerRank(s.workers[w], c)
  {
  }

  lemma ExecuteDecreases(s: State, w: nat)
    requires CanExecute(s, w)
    ensures Measure(DoExecute(s, w)) < Measure(s)
  {
    var t := DoExecute(s, w);
    var j := Carries(s.workers[w]).value;
    assert t.jobs == s.jobs[j := t.jobs[j]] && t.jobs[j].sub == s.jobs[j].sub;
    assert t == s.(workers := s.workers[w := t.workers[w]], jobs := t.jobs);
    ExecuteRank(s, w, AWAKE * |s.awaits|);
    RanksAfterMove(s, t, w);
  }

  lemma RanksAfterMove(s: State, t: State, w: nat)
    requires WorkerMoved(s, t, w)
    requires t == s.(workers := t.workers, jobs := t.jobs)
    requires |t.jobs| == |s.jobs| && forall j | 0 <= j < |s.jobs| :: t.jobs[j].sub == s.jobs[j].sub
    ensures var c := AWAKE * |s.awaits|;
            Measure(t) == Measure(s) - WorkerRank(s.workers[w], c) + WorkerRank(t.workers[w], c)
  {
    WorkerRanksMoved(s, t, w);
    assert SubmitRanks(t) == SubmitRanks(s);
    assert AwaitRanks(t) == AwaitRanks(s);
  }

  lemma RunDecreases(s: State, w: nat, v: Pointer)
    requires CanRun(s, w)
    ensures Measure(DoRun(s, w, v)) < Measure(s)
  {
    var t := DoRun(s, w, v);
    WorkerRanksMoved(s, t, w);
    assert SubmitRanks(t) == SubmitRanks(s);
    assert AwaitRanks(t) == AwaitRanks(s);
  }

  lemma SignalledDecreases(s: State, t: State, w: nat)
    requires w < |s.workers| && s.workers[w].SignalDone?
    requires t.workers == s.workers[w := LeaveDone(s.workers[w].job)]
    requires t.jobs == s.jobs && t.queue == s.queue
    requires |t.awaits| == |s.awaits|
    requires forall a | 0 <= a < |s.awaits| :: t.awaits[a] == s.awaits[a] || t.awaits[a].pc == AwWoken
    ensures Measure(t) < Measure(s)
  {
    WorkerRanksMoved(s, t, w);
    assert SubmitRanks(t) == SubmitRanks(s);
    AwaitRanksRaised(s, t);
    assert QueueWeight(t) == QueueWeight(s);
  }

  lemma SignalResultDecreases(s: State, w: nat, woken: set<nat>)
    requires w < |s.workers| && s.workers[w].SignalDone?
    ensures Measure(DoSignalResult(s, w, woken)) < Measure(s)
  {
    SignalledDecreases(s, DoSignalResult(s, w, woken), w);
  }

  lemma AwaitRanksRaised(s: State, t: State)
    requires |t.awaits| == |s.awaits|
    requires forall a | 0 <= a < |s.awaits| :: t.awaits[a] == s.awaits[a] || t.awaits[a].pc == AwWoken
    ensures Sum(AwaitRanks(t)) <= Sum(AwaitRanks(s)) + AWAKE * |s.awaits|
  {
    SumRaised(AwaitRanks(s), AwaitRanks(t), AWAKE);
  }

  lemma SubmitDecreases(s: State, j: JobId)
    requires CanSubmit(s, j)
    ensures Measure(DoSubmit(s, j)) < Measure(s)
  {
    var t := DoSubmit(s, j);
    SubmitRanksMoved(s, t, j);
    assert WorkerRanks(t) == WorkerRanks(s);
    assert AwaitRanks(t) == AwaitRanks(s);
    if s.jobs[j].sub == SubInQueue {
      var q := QueueRank(AWAKE * |s.awaits|);
      assert |t.queue| * q == |s.queue| * q + q;
    }
  }

  lemma SignalPoolDecreases(s: State, j: JobId, woken: set<nat>)
    requires CanSignalPool(s, j, woken)
    ensures Measure(DoSignalPool(s, j, woken)) < Measure(s)
  {
    var t := DoSignalPool(s, j, woken);
    SubmitRanksMoved(s, t, j);
    assert AwaitRanks(t) == AwaitRanks(s);
    forall w | 0 <= w < |s.workers|
      ensures WorkerRanks(t)[w] <= WorkerRanks(s)[w] + ROUND
    {
    }
    SumRaised(WorkerRanks(s), WorkerRanks(t), ROUND);
  }

  lemma AwaitDecreases(s: State, a: nat)
    requires CanAwait(s, a)
    ensures Measure(DoAwait(s, a)) < Measure(s)
  {
    var t := DoAwait(s, a);
    SumUpdate(AwaitRanks(s), a, AwaitRank(t.awaits[a].pc));
    assert AwaitRanks(t) == AwaitRanks(s)[a := AwaitRank(t.awaits[a].pc)];
    assert WorkerRanks(t) == WorkerRanks(s);
    assert SubmitRanks(t) == SubmitRanks(s);
  }

  /** Every step of a thread that is already there strictly decreases the measure. */
  lemma StepDecreases(s: State, l: Label)
    requires Enabled(s, l) && Internal(l)
    ensures Measure(Apply(s, l)) < Measure(s)
  {
    match l
    case Dispatch(w) => DispatchDecreases(s, w);
    case Execute(w) => ExecuteDecreases(s, w);
    case RunFunction(w, v) => RunDecreases(s, w, v);
    case SignalResult(w, woken) => SignalResultDecreases(s, w, woken);
    case Submit(j) => SubmitDecreases(s, j);
    case SignalPool(j, woken) => SignalPoolDecreases(s, j, woken);
    case StepAwait(a) => AwaitDecreases(s, a);
  }

  /** So no run without new calls and spurious wakeups is longer than the measure. */
  lemma {:induction false} RunsAreBounded(s: State, ls: seq<Label>, t: State)
    requires Run(s, ls, t) && AllInternal(ls)
    ensures |ls| + Measure(t) <= Measure(s)
    decreases |ls|
  {
    if ls != [] {
      StepDecreases(s, ls[0]);
      RunsAreBounded(Apply(s, ls[0]), ls[1..], t);
    }
  }

  // ----- what rest means -----

  lemma QueueOwnerMoves(s: State)
    requires Inv(s) && s.qlock.Some?
    ensures !Quiescent(s)
  {
    var x := s.qlock.value;
    assert InQueueLock(s, x);
    match x
    case Worker(w) =>
      assert s.queue != [] ==> Waiting(s, s.queue[0]);
      assert Enabled(s, Dispatch(w));
    case Submitter(j) => assert Enabled(s, Submit(j));
  }

  lemma SignalIsPossible(s: State, j: JobId) returns (woken: set<nat>)
    requires j < |s.jobs| && s.jobs[j].sub == SubSignal
    ensures CanSignalPool(s, j, woken)
  {
    woken := set w: nat | 0 <= w < |s.workers| && SleepingWorker(s, w);
    if w: nat :| SleepingWorker(s, w) {
      assert w in woken;
    }
  }

  lemma SubmitterInPoolMoves(s: State, j: JobId)
    requires s.qlock == None && InPool(s, Submitter(j))
    ensures !Quiescent(s)
  {
    if s.jobs[j].sub == SubSignal {
      var woken := SignalIsPossible(s, j);
      assert Enabled(s, SignalPool(j, woken));
    } else {
      assert Enabled(s, Submit(j));
    }
  }

  lemma PoolOwnerMoves(s: State)
    requires Inv(s) && s.qlock == None && s.pool.Some?
    ensures !Quiescent(s)
  {
    var x := s.pool.value;
    assert InPool(s, x);
    match x
    case Worker(w) =>
      assert InQueueLock(s, x) <==> s.qlock == Some(x);
      assert Enabled(s, Dispatch(w));
    case Submitter(j) => SubmitterInPoolMoves(s, j);
  }

  lemma WorkerInCellMoves(s: State, w: nat, j: JobId)
    requires CarryInv(s) && InCell(s, j, Worker(w))
    ensures !Quiescent(s)
  {
    assert CarriedBy(s, w, j);
    if s.workers[w].SignalDone? {
      var sleepers := set a: nat | 0 <= a < |s.awaits| && SleepsOn(s, a, j);
      if a: nat :| SleepsOn(s, a, j) {
        assert a in sleepers;
      }
      assert Enabled(s, SignalResult(w, sleepers));
    } else {
      assert Enabled(s, Execute(w));
    }
  }

  lemma CellOwnerMoves(s: State, j: JobId)
    requires Inv(s) && j < |s.jobs| && s.jobs[j].lock.Some?
    ensures !Quiescent(s)
  {
    var x := s.jobs[j].lock.value;
    assert InCell(s, j, x);
    match x
    case Worker(w) => WorkerInCellMoves(s, w, j);
    case Awaiter(a) => assert Enabled(s, StepAwait(a));
  }

  ghost predicate NoMutexHeld(s: State) {
    s.pool == None && s.qlock == None && forall j: JobId | j < |s.jobs| :: s.jobs[j].lock == None
  }

  lemma AtRestNoMutexIsHeld(s: State)
    requires Inv(s)
    ensures Quiescent(s) ==> NoMutexHeld(s)
  {
    if s.qlock.Some? {
      QueueOwnerMoves(s);
    } else if s.pool.Some? {
      PoolOwnerMoves(s);
    } else if j: JobId :| j < |s.jobs| && s.jobs[j].lock.Some? {
      CellOwnerMoves(s, j);
    }
  }

  lemma BusyWorkerMoves(s: State, w: nat)
    requires PoolLockInv(s) && CellLockInv(s) && CarryInv(s) && NoMutexHeld(s)
    requires w < |s.workers| && s.workers[w] != Asleep
    ensures !Quiescent(s)
  {
    assert !InPool(s, Worker(w));
    if Carries(s.workers[w]).Some? {
      var j := Carries(s.workers[w]).value;
      assert CarriedBy(s, w, j);
      assert !InCell(s, j, Worker(w));
      if s.workers[w].Exec? && s.jobs[j].callable {
        assert Enabled(s, RunFunction(w, NULL));
      } else {
        assert Enabled(s, Execute(w));
      }
    } else {
      assert Enabled(s, Dispatch(w));
    }
  }

  lemma BusySubmitterMoves(s: State, j: JobId)
    requires PoolLockInv(s) && NoMutexHeld(s)
    requires j < |s.jobs| && s.jobs[j].sub != SubReturned
    ensures !Quiescent(s)
  {
    assert !InPool(s, Submitter(j));
    assert Enabled(s, Submit(j));
  }

  lemma BusyAwaiterMoves(s: State, a: nat)
    requires AwaitInv(s) && NoMutexHeld(s)
    requires a < |s.awaits| && s.awaits[a].pc != AwAsleep && !s.awaits[a].pc.AwReturned?
    ensures !Quiescent(s)
  {
    assert Enabled(s, StepAwait(a));
  }

  /** Nobody is under way any more. */
  ghost predicate AllIdle(s: State) {
    && (forall w: nat | w < |s.workers| :: s.workers[w] == Asleep)
    && (forall j: JobId | j < |s.jobs| :: s.jobs[j].sub == SubReturned)
    && (forall a: nat | a < |s.awaits| :: s.awaits[a].pc == AwAsleep || s.awaits[a].pc.AwReturned?)
  }

  lemma AtRestAllIdle(s: State)
    requires Inv(s) && NoMutexHeld(s)
    ensures Quiescent(s) ==> AllIdle(s)
  {
    if w: nat :| w < |s.workers| && s.workers[w] != Asleep {
      BusyWorkerMoves(s, w);
    } else if j: JobId :| j < |s.jobs| && s.jobs[j].sub != SubReturned {
      BusySubmitterMoves(s, j);
    } else if a: nat :| a < |s.awaits| && s.awaits[a].pc != AwAsleep && !s.awaits[a].pc.AwReturned? {
      BusyAwaiterMoves(s, a);
    }
  }

  /** At rest the queue is empty, every worker sleeps, every call of `add_work` returned,
      every job was executed, and no mutex is held: there is no deadlock. */
  lemma QuiescentIsDrained(s: State)
    requires Reachable(s) && Quiescent(s)
    ensures AllIdle(s) && NoMutexHeld(s)
    ensures s.queue == [] && s.popped == s.submitted
    ensures forall j: JobId | j < |s.jobs| :: Executed(s.jobs[j]) && j in s.popped
  {
    ReachableInv(s);
    AtRestNoMutexIsHeld(s);
    AtRestAllIdle(s);
    assert SleepingWorker(s, 0);
    assert Pending(s) == {};
    forall j: JobId | j < |s.jobs|
      ensures Executed(s.jobs[j]) && j in s.popped
    {
      assert PlaceOk(s, j);
      assert j in s.queue <==> Waiting(s, j);
      assert j in s.popped <==> Taken(s, j);
    }
  }

  lemma {:induction false} RunExtend(s: State, ls: seq<Label>, t: State, l: Label)
    requires Run(s, ls, t) && Enabled(t, l)
    ensures Run(s, ls + [l], Apply(t, l))
    decreases |ls|
  {
    if ls == [] {
      assert [l][1..] == [];
      assert Run(Apply(t, l), [], Apply(t, l));
    } else {
      RunExtend(Apply(s, ls[0]), ls[1..], t, l);
      assert (ls + [l])[1..] == ls[1..] + [l];
    }
  }

  /** From every reachable state the threads that are there get to rest. */
  lemma {:induction false} AlwaysDrains(s: State) returns (ls: seq<Label>, t: State)
    ensures Run(s, ls, t) && AllInternal(ls) && Quiescent(t)
    decreases Measure(s)
  {
    if Quiescent(s) {
      ls, t := [], s;
    } else {
      var l: Label :| Internal(l) && Enabled(s, l);
      StepDecreases(s, l);
      ls, t := AlwaysDrains(Apply(s, l));
      ls := [l] + ls;
      assert ls[1..] == ls[1..];
    }
  }

  lemma {:induction false} RunConcat(s: State, ls: seq<Label>, t: State, ms: seq<Label>, u: State)
    requires Run(s, ls, t) && Run(t, ms, u)
    ensures Run(s, ls + ms, u)
    decreases |ls|
  {
    if ls == [] {
      assert ls + ms == ms;
    } else {
      RunConcat(Apply(s, ls[0]), ls[1..], t, ms, u);
      assert (ls + ms)[1..] == ls[1..] + ms;
    }
  }

  lemma ReachableOn(s: State, ls: seq<Label>, t: State)
    requires Reachable(s) && Run(s, ls, t)
    ensures Reachable(t)
  {
    var r, ks :| Initial(r) && Run(r, ks, s);
    RunConcat(r, ks, s, ls, t);
  }

  /** At rest, a sole await call on a job with a function has returned the function's result. */
  lemma SoleAwaiterReturns(t: State, a: nat, j: JobId)
    requires Reachable(t) && Quiescent(t)
    requires j < |t.jobs| && t.jobs[j].callable
    requires AwaitsOn(t, a, j) && forall b: nat :: AwaitsOn(t, b, j) ==> b == a
    ensures t.awaits[a].pc.AwReturned? && t.jobs[j].calls == [t.awaits[a].pc.value]
  {
    QuiescentIsDrained(t);
    if t.awaits[a].pc == AwAsleep {
      SoleAwaiterIsWoken(t, a, j);
    }
    AwaitReturnsResult(t, a);
  }

  lemma {:induction false} AwaitKeepsJob(s: State, ls: seq<Label>, t: State, a: nat, j: JobId)
    requires Run(s, ls, t) && AwaitsOn(s, a, j)
    ensures AwaitsOn(t, a, j)
    decreases |ls|
  {
    if ls != [] {
      StepKeepsAwait(s, ls[0], a, j);
      AwaitKeepsJob(Apply(s, ls[0]), ls[1..], t, a, j);
    }
  }

  lemma StepKeepsAwait(s: State, l: Label, a: nat, j: JobId)
    requires Enabled(s, l) && AwaitsOn(s, a, j)
    ensures AwaitsOn(Apply(s, l), a, j)
  {
  }

  /** The exact condition for `await` to come back: for a sole awaiter that sleeps while no
      new call starts, `await` has returned when the pool is at rest if and only if the job
      has a function. */
  lemma SoleAwaiterReturnsIff(s: State, ls: seq<Label>, t: State, a: nat, j: JobId)
    requires Reachable(s) && Run(s, ls, t) && AllInternal(ls) && Quiescent(t)
    requires j < |s.jobs| && SleepsOn(s, a, j)
    requires forall b: nat :: AwaitsOn(t, b, j) ==> b == a
    ensures AwaitsOn(t, a, j) && j < |t.jobs|
    ensures t.awaits[a].pc.AwReturned? <==> s.jobs[j].callable
    ensures s.jobs[j].callable ==> t.jobs[j].calls == [t.awaits[a].pc.value]
  {
    ReachableInv(s);
    ReachableOn(s, ls, t);
    ResultIsFinal(s, ls, t, j);
    AwaitKeepsJob(s, ls, t, a, j);
    if s.jobs[j].callable {
      SoleAwaiterReturns(t, a, j);
    } else {
      LeftAsleep(s, ls, t, a, j);
    }
  }

  // ----- an awaiter that finds the result -----

  lemma StepKeepsAwake(s: State, l: Label, a: nat, j: JobId)
    requires Inv(s) && Enabled(s, l)
    requires j < |s.jobs| && s.jobs[j].cell.done <= 0 && AwakeOn(s, a, j)
    ensures AwakeOn(Apply(s, l), a, j)
  {
    match l
    case StepAwait(c) => assert c != a ==> DoAwait(s, c).awaits[a] == s.awaits[a];
    case Dispatch(w) => assert DoDispatch(s, w).awaits == s.awaits;
    case Execute(w) => assert DoExecute(s, w).awaits == s.awaits;
    case Submit(i) => assert DoSubmit(s, i).awaits == s.awaits;
    case _ =>
  }

  lemma {:induction false} StaysAwake(s: State, ls: seq<Label>, t: State, a: nat, j: JobId)
    requires Inv(s) && Run(s, ls, t)
    requires j < |s.jobs| && s.jobs[j].cell.done <= 0 && AwakeOn(s, a, j)
    ensures AwakeOn(t, a, j)
    decreases |ls|
  {
    if ls != [] {
      StepKeepsAwake(s, ls[0], a, j);
      StepFreezes(s, ls[0], j);
      StepKeepsInv(s, ls[0]);
      StaysAwake(Apply(s, ls[0]), ls[1..], t, a, j);
    }
  }

  /** An await call that is awake when `done` has left 1, such as one that begins then, never
      goes to sleep again: it has returned at the next rest, whatever else happened. This is
      so for jobs without a function as well, and for any number of awaiters. */
  lemma LateAwaiterReturns(s: State, ls: seq<Label>, t: State, a: nat, j: JobId)
    requires Reachable(s) && Run(s, ls, t) && Quiescent(t)
    requires j < |s.jobs| && s.jobs[j].cell.done != 1 && AwakeOn(s, a, j)
    ensures a < |t.awaits| && t.awaits[a].pc.AwReturned?
  {
    ReachableInv(s);
    ResultMeaning(s, j);
    StaysAwake(s, ls, t, a, j);
    ReachableOn(s, ls, t);
    QuiescentIsDrained(t);
  }

  // ----- an awaiter that is never signalled -----

  ghost predicate NoSpuriousWakeup(ls: seq<Label>) {
    forall l | l in ls :: !l.SpuriousWorker? && !l.SpuriousAwait?
  }

  /** Job j has no function, its `threadpool_add_work` has returned, and no mutex is held. */
  ghost predicate Handed(s: State, j: JobId) {
    && NoMutexHeld(s)
    && j < |s.jobs| && !s.jobs[j].callable && s.jobs[j].sub == SubReturned && s.jobs[j].cell == FRESH_CELL
  }

  lemma {:induction false} SubmitsInFour(s: State, j: JobId) returns (ls: seq<Label>, t: State)
    requires NoMutexHeld(s) && j < |s.jobs| && s.jobs[j].sub == SubWantPool
    ensures Run(s, ls, t) && AllInternal(ls)
    ensures t == SetJob(s, j, s.jobs[j].(sub := SubSignal, at := Queued)).(
                   pool := Some(Submitter(j)), queue := Add(s.queue, j), submitted := s.submitted + [j])
  {
    ls, t := [], s;
    for n := 0 to 4
      invariant Run(s, ls, t) && ls == seq(n, i => Submit(j))
      invariant n == 0 ==> t == s
      invariant n == 1 ==> t == SetJob(s, j, s.jobs[j].(sub := SubWantQueue)).(pool := Some(Submitter(j)))
      invariant n == 2 ==> t == SetJob(s, j, s.jobs[j].(sub := SubInQueue)).(
                                  pool := Some(Submitter(j)), qlock := Some(Submitter(j)))
      invariant n == 3 ==> t == SetJob(s, j, s.jobs[j].(sub := SubLeaveQueue, at := Queued)).(
                                  pool := Some(Submitter(j)), qlock := Some(Submitter(j)),
                                  queue := Add(s.queue, j), submitted := s.submitted + [j])
      invariant n == 4 ==> t == SetJob(s, j, s.jobs[j].(sub := SubSignal, at := Queued)).(
                                  pool := Some(Submitter(j)), queue := Add(s.queue, j), submitted := s.submitted + [j])
    {
      RunExtend(s, ls, t, Submit(j));
      ls, t := ls + [Submit(j)], Apply(t, Submit(j));
    }
  }

  /** The submitter of job j is about to signal. */
  ghost predicate Signalling(s: State, j: JobId) {
    && s.qlock == None && (forall i: JobId | i < |s.jobs| :: s.jobs[i].lock == None)
    && j < |s.jobs| && !s.jobs[j].callable && s.jobs[j].sub == SubSignal && s.jobs[j].cell == FRESH_CELL
  }

  lemma SignalsAndReturns(s: State, j: JobId) returns (ls: seq<Label>, t: State)
    requires Signalling(s, j)
    ensures Run(s, ls, t) && AllInternal(ls) && Handed(t, j) && |t.jobs| == |s.jobs|
  {
    var woken := SignalIsPossible(s, j);
    var signal := SignalPool(j, woken);
    var s1 := Apply(s, signal);
    RunExtend(s, [], s, signal);
    RunExtend(s, [] + [signal], s1, Submit(j));
    ls, t := [] + [signal] + [Submit(j)], Apply(s1, Submit(j));
  }

  /** A job without a function is handed to an idle pool. */
  lemma HandsOver(s: State) returns (ls: seq<Label>, t: State)
    requires NoMutexHeld(s)
    ensures Run(s, ls, t) && NoSpuriousWakeup(ls)
    ensures Handed(t, |s.jobs|) && |t.jobs| == |s.jobs| + 1
  {
    var j := |s.jobs|;
    var s1 := Apply(s, AddWork(false));
    RunExtend(s, [], s, AddWork(false));
    var ms, s2 := SubmitsInFour(s1, j);
    RunConcat(s, [] + [AddWork(false)], s1, ms, s2);
    var ns;
    ns, t := SignalsAndReturns(s2, j);
    RunConcat(s, [] + [AddWork(false)] + ms, s2, ns, t);
    ls := [] + [AddWork(false)] + ms + ns;
  }

  /** Its submitter awaits it before a worker gets there. */
  lemma FallsAsleep(s: State, j: JobId) returns (ls: seq<Label>, t: State)
    requires Handed(s, j)
    ensures Run(s, ls, t) && NoSpuriousWakeup(ls)
    ensures SleepsOn(t, |s.awaits|, j) && t.jobs == s.jobs
  {
    var a := |s.awaits|;
    var s1 := Apply(s, StartAwait(j));
    RunExtend(s, [], s, StartAwait(j));
    var s2 := Apply(s1, StepAwait(a));
    RunExtend(s, [] + [StartAwait(j)], s1, StepAwait(a));
    RunExtend(s, [] + [StartAwait(j)] + [StepAwait(a)], s2, StepAwait(a));
    t := Apply(s2, StepAwait(a));
    ls := [] + [StartAwait(j)] + [StepAwait(a)] + [StepAwait(a)];
    assert t.jobs == s.jobs;
  }

  /** In an idle pool a job without a function is handed over and awaited. */
  lemma AwaitsNullJob(s: State) returns (ls: seq<Label>, t: State, a: nat)
    requires NoMutexHeld(s)
    ensures Run(s, ls, t) && NoSpuriousWakeup(ls)
    ensures |s.jobs| < |t.jobs| && !t.jobs[|s.jobs|].callable && SleepsOn(t, a, |s.jobs|)
  {
    var ms, u := HandsOver(s);
    var ns;
    ns, t := FallsAsleep(u, |s.jobs|);
    RunConcat(s, ms, u, ns, t);
    ls, a := ms + ns, |u.awaits|;
  }

  lemma {:induction false} JobsStay(s: State, ls: seq<Label>, t: State)
    requires Run(s, ls, t)
    ensures |s.jobs| <= |t.jobs|
    decreases |ls|
  {
    if ls != [] {
      JobsStay(Apply(s, ls[0]), ls[1..], t);
    }
  }

  /** At the next rest the job has failed and its awaiter sleeps. */
  lemma SleepsAtRest(s: State, a: nat, j: JobId) returns (ls: seq<Label>, t: State)
    requires Reachable(s) && j < |s.jobs| && !s.jobs[j].callable && SleepsOn(s, a, j)
    ensures Run(s, ls, t) && NoSpuriousWakeup(ls) && Reachable(t) && Quiescent(t)
    ensures SleepsOn(t, a, j) && j < |t.jobs| && !t.jobs[j].callable && t.jobs[j].cell.done == -1
  {
    ls, t := AlwaysDrains(s);
    ReachableOn(s, ls, t);
    ReachableInv(s);
    ResultIsFinal(s, ls, t, j);
    LeftAsleep(s, ls, t, a, j);
    QuiescentIsDrained(t);
    assert Executed(t.jobs[j]);
  }

  /** That the job has a function is needed: whatever the pool has done so far, it can go on
      without a spurious wakeup to a rest where a new job without a function has failed and
      the call that awaits its result sleeps. */
  lemma NullJobAwaiterSleeps(s: State) returns (ls: seq<Label>, t: State, a: nat, j: JobId)
    requires Reachable(s)
    ensures Run(s, ls, t) && NoSpuriousWakeup(ls) && Reachable(t) && Quiescent(t)
    ensures |s.jobs| <= j < |t.jobs| && !t.jobs[j].callable && t.jobs[j].cell.done == -1
    ensures SleepsOn(t, a, j)
  {
    var ks, s1 := AlwaysDrains(s);
    ReachableOn(s, ks, s1);
    QuiescentIsDrained(s1);
    JobsStay(s, ks, s1);
    j := |s1.jobs|;
    var ms, s2;
    ms, s2, a := AwaitsNullJob(s1);
    ReachableOn(s1, ms, s2);
    var ns;
    ns, t := SleepsAtRest(s2, a, j);
    RunConcat(s, ks, s1, ms, s2);
    RunConcat(s, ks + ms, s2, ns, t);
    ls := ks + ms + ns;
  }
}
