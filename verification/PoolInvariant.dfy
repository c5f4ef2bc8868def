/** The invariant of the thread pool: what holds in every reachable state. */
module PoolInvariant {
  import opened Common
  import opened JobSpec
  import opened PoolMachine

  // ----- which thread is inside which critical section -----

  predicate HoldsPool(pc: WorkerPc) {
    pc.WantQueue? || pc.InQueue? || pc.LeaveQueue? || pc.CallWait? || pc.Release?
  }

  predicate HoldsQueue(pc: WorkerPc) {
    pc.InQueue? || pc.LeaveQueue?
  }

  function CellHeld(pc: WorkerPc): Option<JobId> {
    match pc
    case InFail(j) => Some(j)
    case LeaveFail(j) => Some(j)
    case InSet(j, _) => Some(j)
    case LeaveSet(j) => Some(j)
    case InDone(j) => Some(j)
    case SignalDone(j) => Some(j)
    case LeaveDone(j) => Some(j)
    case _ => None
  }

  predicate SubHoldsPool(pc: SubmitPc) {
    pc != SubWantPool && pc != SubReturned
  }

  predicate SubHoldsQueue(pc: SubmitPc) {
    pc == SubInQueue || pc == SubLeaveQueue
  }

  predicate AwaitHolds(pc: AwaitPc) {
    pc == AwCheck || pc == AwLeave
  }

  predicate InPool(s: State, x: Thread) {
    match x
    case Worker(w) => w < |s.workers| && HoldsPool(s.workers[w])
    case Submitter(j) => j < |s.jobs| && SubHoldsPool(s.jobs[j].sub)
    case Awaiter(_) => false
  }

  predicate InQueueLock(s: State, x: Thread) {
    match x
    case Worker(w) => w < |s.workers| && HoldsQueue(s.workers[w])
    case Submitter(j) => j < |s.jobs| && SubHoldsQueue(s.jobs[j].sub)
    case Awaiter(_) => false
  }

  predicate InCell(s: State, j: JobId, x: Thread) {
    match x
    case Worker(w) => w < |s.workers| && CellHeld(s.workers[w]) == Some(j)
    case Submitter(_) => false
    case Awaiter(a) => AwaitsOn(s, a, j) && AwaitHolds(s.awaits[a].pc)
  }

  /** The thread inside a critical section is the owner of its mutex, and the owner is inside. */
  ghost predicate PoolLockInv(s: State) {
    forall x: Thread :: InPool(s, x) <==> s.pool == Some(x)
  }

  ghost predicate QueueLockInv(s: State) {
    forall x: Thread :: InQueueLock(s, x) <==> s.qlock == Some(x)
  }

  ghost predicate CellLockInv(s: State) {
    && (forall j: JobId, x: Thread :: InCell(s, j, x) ==> j < |s.jobs|)
    && (forall j: JobId, x: Thread :: j < |s.jobs| ==> (InCell(s, j, x) <==> s.jobs[j].lock == Some(x)))
  }

  // ----- jobs -----

  predicate Enqueued(pc: SubmitPc) {
    pc == SubLeaveQueue || pc == SubSignal || pc == SubRelease || pc == SubReturned
  }

  predicate Pristine(job: Job) {
    job.cell == FRESH_CELL && job.calls == []
  }

  /** A job that was executed: called once if it has a function, never otherwise. */
  predicate Executed(job: Job) {
    if job.callable then |job.calls| == 1 && job.cell == Cell(0, job.calls[0])
    else job.calls == [] && job.cell == Cell(-1, NULL)
  }

  /** What a worker at pc has already done to the job it carries. */
  predicate StageOk(pc: WorkerPc, job: Job) {
    match pc
    case LeaveQueue(_, _) => Pristine(job)
    case Release(_) => Pristine(job)
    case Exec(_) => Pristine(job)
    case WantFail(_) => Pristine(job) && !job.callable
    case InFail(_) => Pristine(job) && !job.callable
    case LeaveFail(_) => Executed(job) && !job.callable
    case WantSet(_, v) => job.callable && job.cell == FRESH_CELL && job.calls == [v]
    case InSet(_, v) => job.callable && job.cell == FRESH_CELL && job.calls == [v]
    case LeaveSet(_) => job.callable && |job.calls| == 1 && job.cell == Cell(1, job.calls[0])
    case WantDone(_) => job.callable && |job.calls| == 1 && job.cell == Cell(1, job.calls[0])
    case InDone(_) => job.callable && |job.calls| == 1 && job.cell == Cell(1, job.calls[0])
    case SignalDone(_) => job.callable && Executed(job)
    case LeaveDone(_) => job.callable && Executed(job)
    case _ => true
  }

  predicate CarriedBy(s: State, w: nat, j: JobId) {
    w < |s.workers| && Carries(s.workers[w]) == Some(j)
  }

  /** A worker carries exactly the jobs that are marked as held by it, and each is at the
      stage that the worker's program point says. */
  ghost predicate CarryInv(s: State) {
    forall w: nat, j: JobId :: CarriedBy(s, w, j) ==>
      j < |s.jobs| && s.jobs[j].at == Held(w) && StageOk(s.workers[w], s.jobs[j])
  }

  predicate PlaceOk(s: State, j: JobId)
    requires j < |s.jobs|
  {
    match s.jobs[j].at
    case Made => !Enqueued(s.jobs[j].sub) && Pristine(s.jobs[j])
    case Queued => Enqueued(s.jobs[j].sub) && Pristine(s.jobs[j])
    case Held(w) => Enqueued(s.jobs[j].sub) && CarriedBy(s, w, j)
    case Finished => Enqueued(s.jobs[j].sub) && Executed(s.jobs[j])
  }

  ghost predicate PlaceInv(s: State) {
    forall j: JobId | j < |s.jobs| :: PlaceOk(s, j)
  }

  ghost predicate NoDuplicates(q: seq<JobId>) {
    forall i, k | 0 <= i < k < |q| :: q[i] != q[k]
  }

  predicate Taken(s: State, j: JobId) {
    j < |s.jobs| && (s.jobs[j].at.Held? || s.jobs[j].at == Finished)
  }

  predicate Waiting(s: State, j: JobId) {
    j < |s.jobs| && s.jobs[j].at == Queued
  }

  /** First in, first out: what was popped, then what is queued, is what was submitted. */
  ghost predicate FifoInv(s: State) {
    && s.submitted == s.popped + s.queue
    && NoDuplicates(s.submitted)
    && (forall j: JobId :: j in s.queue <==> Waiting(s, j))
    && (forall j: JobId :: j in s.popped <==> Taken(s, j))
  }

  // ----- sleeping and waking -----

  /** Woken, but its second pop is still to come. */
  predicate BeforeSecondPop(pc: WorkerPc) {
    pc == Woken || pc == WantQueue(true) || pc == InQueue(true)
  }

  ghost function Pending(s: State): set<nat> {
    set w | 0 <= w < |s.workers| && BeforeSecondPop(s.workers[w])
  }

  /** A submitter has enqueued its job and is about to signal. */
  predicate AboutToSignal(s: State) {
    && s.pool.Some? && s.pool.value.Submitter?
    && s.pool.value.job < |s.jobs|
    && (s.jobs[s.pool.value.job].sub == SubLeaveQueue || s.jobs[s.pool.value.job].sub == SubSignal)
  }

  function Owed(s: State): nat {
    if AboutToSignal(s) then 1 else 0
  }

  /** The first pop found nothing and the worker is on its way to sleep. */
  predicate Dozing(s: State, w: nat) {
    w < |s.workers| && (s.workers[w] == LeaveQueue(false, None) || s.workers[w] == CallWait)
  }

  ghost predicate WakeInv(s: State) {
    && (forall w: nat :: SleepingWorker(s, w) ==> |s.queue| <= |Pending(s)| + Owed(s))
    && (forall w: nat :: Dozing(s, w) ==> s.queue == [])
  }

  predicate AwaitOk(pc: AwaitPc, cell: Cell) {
    && (pc == AwLeave || pc == AwRead ==> cell.done <= 0)
    && (pc.AwReturned? ==> cell.done <= 0 && pc.value == cell.res)
  }

  ghost predicate AwaitInv(s: State) {
    forall a: nat | a < |s.awaits| ::
      s.awaits[a].job < |s.jobs| && AwaitOk(s.awaits[a].pc, s.jobs[s.awaits[a].job].cell)
  }

  /** The worker that finished j has not signalled its awaiters yet. */
  predicate SignalDue(s: State, j: JobId) {
    && j < |s.jobs| && s.jobs[j].at.Held?
    && s.jobs[j].at.holder < |s.workers|
    && s.workers[s.jobs[j].at.holder] == SignalDone(j)
  }

  predicate AwakeOn(s: State, b: nat, j: JobId) {
    AwaitsOn(s, b, j) && s.awaits[b].pc != AwAsleep
  }

  /** Once a result is there and signalled, a sleeping awaiter is never the only one. */
  ghost predicate ResultSignalInv(s: State) {
    forall a: nat, j: JobId ::
      SleepsOn(s, a, j) && j < |s.jobs| && s.jobs[j].cell.done == 0 && !SignalDue(s, j) ==>
        exists b: nat :: AwakeOn(s, b, j)
  }

  ghost predicate Inv(s: State) {
    && |s.workers| > 0
    && PoolLockInv(s)
    && QueueLockInv(s)
    && CellLockInv(s)
    && CarryInv(s)
    && PlaceInv(s)
    && FifoInv(s)
    && WakeInv(s)
    && AwaitInv(s)
    && ResultSignalInv(s)
  }

  lemma InitialInv(s: State)
    requires Initial(s)
    ensures Inv(s)
  {
  }
}
