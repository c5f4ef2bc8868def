/** The thread pool of src/threadpool.c and src/job.c as a labelled transition system.

    A thread is at a program point between two of its atomic actions: taking a mutex,
    releasing one, going to sleep in `pthread_cond_wait`, or one access to shared data.
    Every call of `threadpool_add_work` is one entry of `jobs`, numbered by its index, so
    there may be any number of submitters; every call of `threadpool_job_result_await` is
    one entry of `awaits`; it begins after the job's `threadpool_add_work` has returned the
    result to wait for. The workers are the N threads that `threadpool_new` starts. */
module PoolMachine {
  import opened Common
  import opened JobSpec

  type JobId = nat

  datatype Thread = Worker(w: nat) | Submitter(job: JobId) | Awaiter(a: nat)
  type Mutex = Option<Thread>

  /** Program points of `threadpool_worker_func`. `second` tells the pop after the wait
      from the one before it. */
  datatype WorkerPc =
    | WantPool
    | WantQueue(second: bool)
    | InQueue(second: bool)
    | LeaveQueue(second: bool, got: Option<JobId>)
    | CallWait
    | Asleep
    | Woken
    | Release(got: Option<JobId>)
    | Exec(job: JobId)
    | WantFail(job: JobId)
    | InFail(job: JobId)
    | LeaveFail(job: JobId)
    | WantSet(job: JobId, value: Pointer)
    | InSet(job: JobId, value: Pointer)
    | LeaveSet(job: JobId)
    | WantDone(job: JobId)
    | InDone(job: JobId)
    | SignalDone(job: JobId)
    | LeaveDone(job: JobId)

  /** Program points of `threadpool_add_work`. */
  datatype SubmitPc = SubWantPool | SubWantQueue | SubInQueue | SubLeaveQueue | SubSignal | SubRelease | SubReturned

  /** Program points of `threadpool_job_result_await`. */
  datatype AwaitPc = AwWant | AwCheck | AwAsleep | AwWoken | AwLeave | AwRead | AwReturned(value: Pointer)

  /** Where a job is; history only, no step looks at it. */
  datatype Place = Made | Queued | Held(holder: nat) | Finished

  /** A job with its submitter and its result cell. `callable` says that the function
      pointer is not null, `calls` lists what the function returned each time it ran. */
  datatype Job = Job(callable: bool, sub: SubmitPc, lock: Mutex, cell: Cell, calls: seq<Pointer>, at: Place)

  datatype Await = Await(job: JobId, pc: AwaitPc)

  /** `submitted` and `popped` record the orders of enqueuing and dequeuing; history only. */
  datatype State = State(
    pool: Mutex,
    qlock: Mutex,
    queue: seq<JobId>,
    workers: seq<WorkerPc>,
    jobs: seq<Job>,
    awaits: seq<Await>,
    submitted: seq<JobId>,
    popped: seq<JobId>)

  datatype Label =
    | Dispatch(w: nat)
    | Execute(w: nat)
    | RunFunction(w: nat, value: Pointer)
    | SignalResult(w: nat, woken: set<nat>)
    | Submit(job: JobId)
    | SignalPool(job: JobId, woken: set<nat>)
    | StepAwait(a: nat)
    | AddWork(callable: bool)
    | StartAwait(job: JobId)
    | SpuriousWorker(w: nat)
    | SpuriousAwait(a: nat)

  /** A pool of n workers just created: `threadpool_new` makes one only for n > 0. */
  predicate Initial(s: State) {
    && s.pool == None && s.qlock == None
    && s.queue == [] && s.jobs == [] && s.awaits == [] && s.submitted == [] && s.popped == []
    && |s.workers| > 0
    && forall w | 0 <= w < |s.workers| :: s.workers[w] == WantPool
  }

  function Carries(pc: WorkerPc): Option<JobId> {
    match pc
    case LeaveQueue(_, got) => got
    case Release(got) => got
    case Exec(j) => Some(j)
    case WantFail(j) => Some(j)
    case InFail(j) => Some(j)
    case LeaveFail(j) => Some(j)
    case WantSet(j, _) => Some(j)
    case InSet(j, _) => Some(j)
    case LeaveSet(j) => Some(j)
    case WantDone(j) => Some(j)
    case InDone(j) => Some(j)
    case SignalDone(j) => Some(j)
    case LeaveDone(j) => Some(j)
    case _ => None
  }

  function MoveWorker(s: State, w: nat, pc: WorkerPc): State
    requires w < |s.workers|
  {
    s.(workers := s.workers[w := pc])
  }

  function SetJob(s: State, j: JobId, job: Job): State
    requires j < |s.jobs|
  {
    s.(jobs := s.jobs[j := job])
  }

  // ----- the worker under the pool mutex: src/threadpool.c:56-63, src/job.c:96-108 -----

  predicate CanDispatch(s: State, w: nat) {
    && w < |s.workers|
    && match s.workers[w]
       case WantPool => s.pool == None
       case Woken => s.pool == None
       case WantQueue(_) => s.qlock == None
       case InQueue(_) => s.queue == [] || s.queue[0] < |s.jobs|
       case LeaveQueue(_, _) => true
       case CallWait => true
       case Release(_) => true
       case _ => false
  }

  function DoDispatch(s: State, w: nat): State
    requires CanDispatch(s, w)
  {
    match s.workers[w]
    case WantPool => MoveWorker(s, w, WantQueue(false)).(pool := Some(Worker(w)))
    case Woken => MoveWorker(s, w, WantQueue(true)).(pool := Some(Worker(w)))
    case WantQueue(b) => MoveWorker(s, w, InQueue(b)).(qlock := Some(Worker(w)))
    case InQueue(b) => TakeJob(s, w, b)
    case LeaveQueue(b, got) =>
      MoveWorker(s, w, if got == None && !b then CallWait else Release(got)).(qlock := None)
    case CallWait => MoveWorker(s, w, Asleep).(pool := None)
    case Release(got) =>
      MoveWorker(s, w, if got.Some? then Exec(got.value) else WantPool).(pool := None)
    case _ => s
  }

  function TakeJob(s: State, w: nat, second: bool): State
    requires w < |s.workers|
    requires s.queue == [] || s.queue[0] < |s.jobs|
  {
    var (got, rest) := Pop(s.queue);
    var moved := MoveWorker(s, w, LeaveQueue(second, got)).(queue := rest);
    if got == None then moved
    else SetJob(moved, got.value, s.jobs[got.value].(at := Held(w))).(popped := s.popped + [got.value])
  }

  // ----- the worker executing a job: src/job.c:53-67, 26-30 -----

  predicate CanExecute(s: State, w: nat) {
    && w < |s.workers|
    && Carries(s.workers[w]).Some?
    && Carries(s.workers[w]).value < |s.jobs|
    && var job := s.jobs[Carries(s.workers[w]).value];
       match s.workers[w]
       case Exec(_) => !job.callable
       case WantFail(_) => job.lock == None
       case WantSet(_, _) => job.lock == None
       case WantDone(_) => job.lock == None
       case InFail(_) => true
       case LeaveFail(_) => true
       case InSet(_, _) => true
       case LeaveSet(_) => true
       case InDone(_) => true
       case LeaveDone(_) => true
       case _ => false
  }

  function DoExecute(s: State, w: nat): State
    requires CanExecute(s, w)
  {
    var j := Carries(s.workers[w]).value;
    var job := s.jobs[j];
    match s.workers[w]
    case Exec(_) => MoveWorker(s, w, WantFail(j))
    case WantFail(_) => SetJob(MoveWorker(s, w, InFail(j)), j, job.(lock := Some(Worker(w))))
    case InFail(_) => SetJob(MoveWorker(s, w, LeaveFail(j)), j, job.(cell := MarkFailed(job.cell)))
    case LeaveFail(_) => SetJob(MoveWorker(s, w, WantPool), j, job.(lock := None, at := Finished))
    case WantSet(_, v) => SetJob(MoveWorker(s, w, InSet(j, v)), j, job.(lock := Some(Worker(w))))
    case InSet(_, v) => SetJob(MoveWorker(s, w, LeaveSet(j)), j, job.(cell := SetResult(job.cell, v)))
    case LeaveSet(_) => SetJob(MoveWorker(s, w, WantDone(j)), j, job.(lock := None))
    case WantDone(_) => SetJob(MoveWorker(s, w, InDone(j)), j, job.(lock := Some(Worker(w))))
    case InDone(_) => SetJob(MoveWorker(s, w, SignalDone(j)), j, job.(cell := MarkDone(job.cell)))
    case LeaveDone(_) => SetJob(MoveWorker(s, w, WantPool), j, job.(lock := None, at := Finished))
    case _ => s
  }

  /** The call `job->function(job->arg)` returns v. */
  predicate CanRun(s: State, w: nat) {
    && w < |s.workers|
    && s.workers[w].Exec?
    && s.workers[w].job < |s.jobs|
    && s.jobs[s.workers[w].job].callable
  }

  function DoRun(s: State, w: nat, v: Pointer): State
    requires CanRun(s, w)
  {
    var j := s.workers[w].job;
    SetJob(MoveWorker(s, w, WantSet(j, v)), j, s.jobs[j].(calls := s.jobs[j].calls + [v]))
  }

  // ----- condition variables: a signal wakes at least one sleeper if there is one -----

  predicate AwaitsOn(s: State, a: nat, j: JobId) {
    a < |s.awaits| && s.awaits[a].job == j
  }

  predicate SleepsOn(s: State, a: nat, j: JobId) {
    AwaitsOn(s, a, j) && s.awaits[a].pc == AwAsleep
  }

  predicate SleepingWorker(s: State, w: nat) {
    w < |s.workers| && s.workers[w] == Asleep
  }

  ghost predicate CanSignalResult(s: State, w: nat, woken: set<nat>) {
    && w < |s.workers|
    && s.workers[w].SignalDone?
    && (forall a | a in woken :: SleepsOn(s, a, s.workers[w].job))
    && ((exists a: nat :: SleepsOn(s, a, s.workers[w].job)) ==> woken != {})
  }

  function DoSignalResult(s: State, w: nat, woken: set<nat>): State
    requires w < |s.workers| && s.workers[w].SignalDone?
  {
    MoveWorker(s, w, LeaveDone(s.workers[w].job)).(awaits := WakeAwaits(s.awaits, woken))
  }

  function WakeAwaits(awaits: seq<Await>, woken: set<nat>): (r: seq<Await>)
    ensures |r| == |awaits|
    ensures forall a | 0 <= a < |r| :: r[a] == if a in woken then awaits[a].(pc := AwWoken) else awaits[a]
  {
    seq(|awaits|, a requires 0 <= a < |awaits| => if a in woken then awaits[a].(pc := AwWoken) else awaits[a])
  }

  ghost predicate CanSignalPool(s: State, j: JobId, woken: set<nat>) {
    && j < |s.jobs|
    && s.jobs[j].sub == SubSignal
    && (forall w | w in woken :: SleepingWorker(s, w))
    && ((exists w: nat :: SleepingWorker(s, w)) ==> woken != {})
  }

  function DoSignalPool(s: State, j: JobId, woken: set<nat>): State
    requires j < |s.jobs|
  {
    SetJob(s, j, s.jobs[j].(sub := SubRelease)).(workers := WakeWorkers(s.workers, woken))
  }

  function WakeWorkers(workers: seq<WorkerPc>, woken: set<nat>): (r: seq<WorkerPc>)
    ensures |r| == |workers|
    ensures forall w | 0 <= w < |r| :: r[w] == if w in woken then Woken else workers[w]
  {
    seq(|workers|, w requires 0 <= w < |workers| => if w in woken then Woken else workers[w])
  }

  // ----- the submitter: src/threadpool.c:28-36, src/job.c:81-95 -----

  predicate CanSubmit(s: State, j: JobId) {
    && j < |s.jobs|
    && match s.jobs[j].sub
       case SubWantPool => s.pool == None
       case SubWantQueue => s.qlock == None
       case SubInQueue => true
       case SubLeaveQueue => true
       case SubSignal => false
       case SubRelease => true
       case SubReturned => false
  }

  function DoSubmit(s: State, j: JobId): State
    requires CanSubmit(s, j)
  {
    var job := s.jobs[j];
    match job.sub
    case SubWantPool => SetJob(s, j, job.(sub := SubWantQueue)).(pool := Some(Submitter(j)))
    case SubWantQueue => SetJob(s, j, job.(sub := SubInQueue)).(qlock := Some(Submitter(j)))
    case SubInQueue =>
      SetJob(s, j, job.(sub := SubLeaveQueue, at := Queued)).(
        queue := Add(s.queue, j), submitted := s.submitted + [j])
    case SubLeaveQueue => SetJob(s, j, job.(sub := SubSignal)).(qlock := None)
    case SubRelease => SetJob(s, j, job.(sub := SubReturned)).(pool := None)
    case _ => s
  }

  // ----- the awaiter: src/job.c:31-38 -----

  predicate CanAwait(s: State, a: nat) {
    && a < |s.awaits|
    && s.awaits[a].job < |s.jobs|
    && match s.awaits[a].pc
       case AwWant => s.jobs[s.awaits[a].job].lock == None
       case AwWoken => s.jobs[s.awaits[a].job].lock == None
       case AwCheck => true
       case AwAsleep => false
       case AwLeave => true
       case AwRead => true
       case AwReturned(_) => false
  }

  function MoveAwait(s: State, a: nat, pc: AwaitPc): State
    requires a < |s.awaits|
  {
    s.(awaits := s.awaits[a := s.awaits[a].(pc := pc)])
  }

  function DoAwait(s: State, a: nat): State
    requires CanAwait(s, a)
  {
    var j := s.awaits[a].job;
    var job := s.jobs[j];
    match s.awaits[a].pc
    case AwWant => SetJob(MoveAwait(s, a, AwCheck), j, job.(lock := Some(Awaiter(a))))
    case AwWoken => SetJob(MoveAwait(s, a, AwCheck), j, job.(lock := Some(Awaiter(a))))
    case AwCheck =>
      if job.cell.done > 0 then SetJob(MoveAwait(s, a, AwAsleep), j, job.(lock := None))
      else MoveAwait(s, a, AwLeave)
    case AwLeave => SetJob(MoveAwait(s, a, AwRead), j, job.(lock := None))
    case AwRead => MoveAwait(s, a, AwReturned(job.cell.res))
    case _ => s
  }

  // ----- the whole system -----

  ghost predicate Enabled(s: State, l: Label) {
    match l
    case Dispatch(w) => CanDispatch(s, w)
    case Execute(w) => CanExecute(s, w)
    case RunFunction(w, _) => CanRun(s, w)
    case SignalResult(w, woken) => CanSignalResult(s, w, woken)
    case Submit(j) => CanSubmit(s, j)
    case SignalPool(j, woken) => CanSignalPool(s, j, woken)
    case StepAwait(a) => CanAwait(s, a)
    case AddWork(_) => true
    case StartAwait(j) => j < |s.jobs| && s.jobs[j].sub == SubReturned
    case SpuriousWorker(w) => SleepingWorker(s, w)
    case SpuriousAwait(a) => a < |s.awaits| && s.awaits[a].pc == AwAsleep
  }

  ghost function Apply(s: State, l: Label): State
    requires Enabled(s, l)
  {
    match l
    case Dispatch(w) => DoDispatch(s, w)
    case Execute(w) => DoExecute(s, w)
    case RunFunction(w, v) => DoRun(s, w, v)
    case SignalResult(w, woken) => DoSignalResult(s, w, woken)
    case Submit(j) => DoSubmit(s, j)
    case SignalPool(j, woken) => DoSignalPool(s, j, woken)
    case StepAwait(a) => DoAwait(s, a)
    case AddWork(callable) => s.(jobs := s.jobs + [Job(callable, SubWantPool, None, FRESH_CELL, [], Made)])
    case StartAwait(j) => s.(awaits := s.awaits + [Await(j, AwWant)])
    case SpuriousWorker(w) => MoveWorker(s, w, Woken)
    case SpuriousAwait(a) => MoveAwait(s, a, AwWoken)
  }

  /** The labels ls lead from s to t, every one enabled where it is taken. */
  ghost predicate Run(s: State, ls: seq<Label>, t: State)
    decreases |ls|
  {
    if ls == [] then s == t
    else Enabled(s, ls[0]) && Run(Apply(s, ls[0]), ls[1..], t)
  }

  /** Some run of a freshly created pool ends in t. */
  ghost predicate Reachable(t: State) {
    exists s, ls :: Initial(s) && Run(s, ls, t)
  }
}
