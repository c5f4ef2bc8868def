/** What the job queue and the result cell of src/job.c mean, as values.
    The heap classes of JobQueue.dfy are proved against these functions, and the
    step system of PoolMachine.dfy takes its steps with them. */
module JobSpec {
  import opened Common

  /** A `void *`; job functions may return any of them, the null pointer included. */
  type Pointer = nat
  const NULL: Pointer := 0

  function Add<T>(queue: seq<T>, job: T): seq<T> {
    queue + [job]
  }

  function Pop<T>(queue: seq<T>): (Option<T>, seq<T>) {
    if queue == [] then (None, queue) else (Some(queue[0]), queue[1..])
  }

  // ----- any run of additions and pops -----

  /** What a job does. */
  datatype Work = Work(func: Option<Pointer -> Pointer>, arg: Pointer)

  datatype QueueOp = OpAdd(work: Work) | OpPop

  /** The works added, the works that pops returned, and the queue. */
  datatype History = History(added: seq<Work>, popped: seq<Work>, queue: seq<Work>)

  ghost function Do(h: History, op: QueueOp): History {
    match op
    case OpAdd(work) => h.(added := h.added + [work], queue := Add(h.queue, work))
    case OpPop =>
      var (got, rest) := Pop(h.queue);
      if got.Some? then h.(popped := h.popped + [got.value], queue := rest) else h
  }

  ghost function Replay(h: History, ops: seq<QueueOp>): History
    decreases |ops|
  {
    if ops == [] then h else Replay(Do(h, ops[0]), ops[1..])
  }

  /** The works of the additions, in order. */
  function Additions(ops: seq<QueueOp>): seq<Work> {
    if ops == [] then []
    else if ops[0].OpAdd? then [ops[0].work] + Additions(ops[1..])
    else Additions(ops[1..])
  }

  /** How many of the pops find a job when the queue has n of them at first. */
  function Served(ops: seq<QueueOp>, n: nat): nat {
    if ops == [] then 0
    else if ops[0].OpAdd? then Served(ops[1..], n + 1)
    else if n == 0 then Served(ops[1..], 0)
    else 1 + Served(ops[1..], n - 1)
  }

  /** First in, first out: a run adds all that it is told to add, and its pops return the
      first of these, one for every pop that finds a job. */
  lemma {:induction false} ReplayIsFifo(h: History, ops: seq<QueueOp>)
    requires h.popped + h.queue == h.added
    ensures var r := Replay(h, ops);
            && r.added == h.added + Additions(ops)
            && |r.popped| == |h.popped| + Served(ops, |h.queue|)
            && r.popped + r.queue == r.added
    decreases |ops|
  {
    if ops == [] {
      assert h.added + Additions(ops) == h.added;
    } else {
      var next := Do(h, ops[0]);
      ReplayIsFifo(next, ops[1..]);
      if ops[0].OpAdd? {
        assert h.added + Additions(ops) == next.added + Additions(ops[1..]);
      }
    }
  }

  // ----- result cells -----

  /** The data of a threadpool_job_result_t. */
  datatype Cell = Cell(done: int, res: Pointer)

  const FRESH_CELL := Cell(1, NULL)

  function SetResult(c: Cell, r: Pointer): Cell {
    c.(res := r)
  }

  function MarkDone(c: Cell): Cell {
    c.(done := 0)
  }

  function MarkFailed(c: Cell): Cell {
    c.(done := -1)
  }
}
