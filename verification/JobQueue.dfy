/** The heap structures of src/job.c and the pool object of src/threadpool.c, each method
    proved against the functions of JobSpec that the step system runs on. */
module JobQueue {
  import opened Common
  import opened JobSpec

  /** threadpool_job_result_t. Its mutex and condition variable are part of PoolMachine. */
  class JobResult {
    var done: int
    var res: Pointer

    function Value(): Cell
      reads this
    {
      Cell(done, res)
    }

    constructor ()
      ensures Value() == FRESH_CELL
    {
      done, res := 1, NULL;
    }

    /** `threadpool_job_result_set`. */
    method Set(r: Pointer)
      modifies this
      ensures Value() == SetResult(old(Value()), r)
    {
      res := r;
    }
  }

  /** threadpool_job_t. A job function takes a pointer and returns one; None is the null
      function pointer. */
  class Job {
    const func: Option<Pointer -> Pointer>
    const arg: Pointer
    const jres: JobResult
    var next: Job?

    constructor (f: Option<Pointer -> Pointer>, a: Pointer)
      ensures func == f && arg == a && next == null
      ensures fresh(jres) && jres.Value() == FRESH_CELL
    {
      func, arg, next := f, a, null;
      jres := new JobResult();
    }

    /** `threadpool_job_exec`: without a function the job fails, with one its result is
        stored before the job is marked as done. */
    method Exec() returns (r: Pointer)
      modifies jres
      ensures func == None ==> jres.Value() == MarkFailed(old(jres.Value())) && r == NULL
      ensures func.Some? ==>
                jres.Value() == MarkDone(SetResult(old(jres.Value()), func.value(arg))) && r == func.value(arg)
    {
      if func == None {
        jres.done := -1;
        return NULL;
      }
      var result := func.value(arg);
      jres.Set(result);
      jres.done := 0;
      return jres.res;
    }
  }

  /** threadpool_job_queue_t. `nodes` is the abstract queue. */
  class Queue {
    var head: Job?
    var tail: Job?
    var size: nat
    ghost var nodes: seq<Job>

    /** The chain from head through next is exactly `nodes`, ends there, and visits no job
        twice; tail is its last job unless the queue is empty, when tail may be stale. */
    ghost predicate Valid()
      reads this, nodes
    {
      && size == |nodes|
      && (forall i, k | 0 <= i < k < |nodes| :: nodes[i] != nodes[k])
      && (forall i | 0 <= i < |nodes| - 1 :: nodes[i].next == nodes[i + 1])
      && head == (if nodes == [] then null else nodes[0])
      && (nodes != [] ==> tail == nodes[|nodes| - 1] && tail.next == null)
    }

    constructor ()
      ensures Valid() && nodes == []
    {
      head, tail, size, nodes := null, null, 0, [];
    }

    /** `threadpool_job_queue_add_job`. Only the empty queue relies on `next` being null:
        the other branch clears it. */
    method AddJob(job: Job)
      requires Valid() && job !in nodes
      requires nodes == [] ==> job.next == null
      modifies this, nodes, job
      ensures Valid() && nodes == Add(old(nodes), job)
    {
      if head == null {
        tail := job;
        head := job;
      } else {
        job.next := null;
        tail.next := job;
        tail := job;
      }
      size := size + 1;
      nodes := nodes + [job];
    }

    /** `threadpool_job_queue_pop_job`: the popped job is unlinked, tail is left alone. */
    method PopJob() returns (job: Job?)
      requires Valid()
      modifies this, nodes
      ensures Valid() && nodes == Pop(old(nodes)).1 && tail == old(tail)
      ensures match Pop(old(nodes)).0 case None => job == null case Some(j) => job == j && j.next == null
    {
      if size == 0 {
        return null;
      }
      job := head;
      assert forall i | 1 <= i < |nodes| :: nodes[i] != nodes[0];
      head := job.next;
      job.next := null;
      size := size - 1;
      nodes := nodes[1..];
    }
  }

  ghost function WorkOf(job: Job): Work {
    Work(job.func, job.arg)
  }

  ghost function Works(jobs: seq<Job>): (works: seq<Work>)
    ensures |works| == |jobs| && forall i | 0 <= i < |jobs| :: works[i] == WorkOf(jobs[i])
  {
    seq(|jobs|, i requires 0 <= i < |jobs| => WorkOf(jobs[i]))
  }

  ghost function HistoryOf(added: seq<Job>, popped: seq<Job>, nodes: seq<Job>): History {
    History(Works(added), Works(popped), Works(nodes))
  }

  lemma AddDone(added: seq<Job>, popped: seq<Job>, nodes: seq<Job>, job: Job)
    ensures Do(HistoryOf(added, popped, nodes), OpAdd(WorkOf(job))) == HistoryOf(added + [job], popped, nodes + [job])
    ensures popped + (nodes + [job]) == popped + nodes + [job]
  {
    assert Works(added + [job]) == Works(added) + [WorkOf(job)];
    assert Works(nodes + [job]) == Works(nodes) + [WorkOf(job)];
  }

  lemma PopDone(added: seq<Job>, popped: seq<Job>, nodes: seq<Job>)
    ensures Do(HistoryOf(added, popped, nodes), OpPop)
            == if nodes == [] then HistoryOf(added, popped, nodes)
               else HistoryOf(added, popped + [nodes[0]], nodes[1..])
    ensures nodes != [] ==> popped + [nodes[0]] + nodes[1..] == popped + nodes
  {
    if nodes != [] {
      assert Works(popped + [nodes[0]]) == Works(popped) + [WorkOf(nodes[0])];
      assert Works(nodes[1..]) == Works(nodes)[1..];
    }
  }

  ghost predicate Distinct(jobs: seq<Job>) {
    forall i, k | 0 <= i < k < |jobs| :: jobs[i] != jobs[k]
  }

  lemma DistinctAppend(jobs: seq<Job>, job: Job)
    requires Distinct(jobs) && job !in jobs
    ensures Distinct(jobs + [job])
  {
  }

  lemma TailIsIn(added: seq<Job>, popped: seq<Job>, nodes: seq<Job>)
    requires popped + nodes == added
    ensures forall i | 0 <= i < |nodes| :: nodes[i] in added
  {
    assert forall i | 0 <= i < |nodes| :: nodes[i] == added[|popped| + i];
  }

  /** Add a fresh job; `added` and `popped` are the jobs of the run so far. */
  method RunAdd(q: Queue, work: Work, added: seq<Job>, popped: seq<Job>) returns (job: Job)
    requires q.Valid() && popped + q.nodes == added && Distinct(added)
    modifies q, q.nodes
    ensures q.Valid() && popped + q.nodes == added + [job] && Distinct(added + [job]) && fresh(job)
    ensures HistoryOf(added + [job], popped, q.nodes) == Do(HistoryOf(added, popped, old(q.nodes)), OpAdd(work))
  {
    TailIsIn(added, popped, q.nodes);
    job := new Job(work.func, work.arg);
    AddDone(added, popped, q.nodes, job);
    DistinctAppend(added, job);
    q.AddJob(job);
  }

  /** Pop a job if there is one. */
  method RunPop(q: Queue, added: seq<Job>, popped: seq<Job>) returns (nowPopped: seq<Job>)
    requires q.Valid() && popped + q.nodes == added
    modifies q, q.nodes
    ensures q.Valid() && nowPopped + q.nodes == added
    ensures HistoryOf(added, nowPopped, q.nodes) == Do(HistoryOf(added, popped, old(q.nodes)), OpPop)
  {
    PopDone(added, popped, q.nodes);
    var job := q.PopJob();
    nowPopped := if job == null then popped else popped + [job];
  }

  /** Any run of additions of fresh jobs and pops does at pointer level what Replay does on
      values: one fresh job is added for every addition, with its function and argument; one
      job is popped for every pop that finds one; the popped jobs followed by the chain are
      the added jobs, in order and without repetition. */
  method RunOps(ops: seq<QueueOp>) returns (q: Queue, added: seq<Job>, popped: seq<Job>)
    ensures fresh(q) && q.Valid() && forall job | job in added :: fresh(job)
    ensures HistoryOf(added, popped, q.nodes) == Replay(History([], [], []), ops)
    ensures Works(added) == Additions(ops) && |popped| == Served(ops, 0)
    ensures popped + q.nodes == added && Distinct(added)
    ensures q.head == null <==> popped == added
  {
    q := new Queue();
    added, popped := [], [];
    ghost var start := History([], [], []);
    assert ops[0..] == ops;
    for n := 0 to |ops|
      invariant q.Valid() && fresh(q) && popped + q.nodes == added && Distinct(added)
      invariant forall job | job in added :: fresh(job)
      invariant Replay(HistoryOf(added, popped, q.nodes), ops[n..]) == Replay(start, ops)
    {
      assert ops[n..][0] == ops[n] && ops[n..][1..] == ops[n + 1..];
      TailIsIn(added, popped, q.nodes);
      match ops[n]
      case OpAdd(work) =>
        var job := RunAdd(q, work, added, popped);
        added := added + [job];
      case OpPop =>
        popped := RunPop(q, added, popped);
    }
    ReplayIsFifo(start, ops);
  }

  /** threadpool_worker_t and the data its thread starts with. What the thread does is the
      worker of PoolMachine. */
  class PoolWorker {
    const id: nat
    const pool: ThreadPool

    constructor (i: nat, p: ThreadPool)
      ensures id == i && pool == p
    {
      id, pool := i, p;
    }
  }

  /** threadpool_t. Its mutex is part of PoolMachine. */
  class ThreadPool {
    const numthreads: nat
    const queue: Queue
    var workers: seq<PoolWorker>

    constructor (size: nat)
      requires size > 0
      ensures numthreads == size && fresh(queue) && queue.Valid() && queue.nodes == []
      ensures |workers| == size
      ensures forall i | 0 <= i < size :: fresh(workers[i]) && workers[i].id == i && workers[i].pool == this
    {
      numthreads := size;
      queue := new Queue();
      workers := [];
      new;
      for i := 0 to size
        invariant |workers| == i && numthreads == size
        invariant fresh(queue) && queue.Valid() && queue.nodes == []
        invariant forall k | 0 <= k < i :: fresh(workers[k]) && workers[k].id == k && workers[k].pool == this
      {
        var worker := new PoolWorker(i, this);
        workers := workers + [worker];
      }
    }

    /** `threadpool_new`: no pool without workers; otherwise one worker thread is started for
        every number below size. */
    static method New(size: nat) returns (p: ThreadPool?)
      ensures p == null <==> size == 0
      ensures p != null ==> fresh(p) && p.numthreads == size && p.queue.Valid() && p.queue.nodes == []
      ensures p != null ==> |p.workers| == size
      ensures p != null ==>
                forall i | 0 <= i < size :: fresh(p.workers[i]) && p.workers[i].id == i && p.workers[i].pool == p
    {
      if size == 0 {
        return null;
      }
      p := new ThreadPool(size);
    }

    /** `threadpool_add_work`: a fresh job goes to the end of the queue; the caller gets its
        result cell. */
    method AddWork(f: Option<Pointer -> Pointer>, arg: Pointer) returns (jres: JobResult)
      requires queue.Valid()
      modifies queue, queue.nodes
      ensures queue.Valid() && fresh(jres) && jres.Value() == FRESH_CELL
      ensures |queue.nodes| == |old(queue.nodes)| + 1
      ensures var job := queue.nodes[|old(queue.nodes)|];
              queue.nodes == Add(old(queue.nodes), job) && fresh(job) && job.jres == jres &&
              job.func == f && job.arg == arg
    {
      var job := new Job(f, arg);
      queue.AddJob(job);
      return job.jres;
    }
  }
}
