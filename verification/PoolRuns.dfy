/** What a run makes of the calls in it. The labels of a run alone say which jobs and await
    calls there are and which functions returned what; the records of the states agree. */
module PoolRuns {
  import opened Common
  import opened JobSpec
  import opened PoolMachine
  import opened PoolInvariant
  import opened PoolSteps
  import opened PoolTheorems
  import opened PoolDrain

  // ----- what the labels say -----

  /** The calls of `threadpool_add_work`, in order: was a function passed? */
  function Flags(ls: seq<Label>): seq<bool> {
    if ls == [] then [] else FlagOf(ls[0]) + Flags(ls[1..])
  }

  function FlagOf(l: Label): seq<bool> {
    if l.AddWork? then [l.callable] else []
  }

  /** The calls of `threadpool_job_result_await`, in order: the job awaited. */
  function Targets(ls: seq<Label>): seq<JobId> {
    if ls == [] then [] else TargetOf(ls[0]) + Targets(ls[1..])
  }

  function TargetOf(l: Label): seq<JobId> {
    if l.StartAwait? then [l.job] else []
  }

  /** The calls of job functions. */
  function FunctionCalls(ls: seq<Label>): nat {
    if ls == [] then 0 else (if ls[0].RunFunction? then 1 else 0) + FunctionCalls(ls[1..])
  }

  function CountTrue(flags: seq<bool>): nat {
    if flags == [] then 0 else (if flags[0] then 1 else 0) + CountTrue(flags[1..])
  }

  /** What the function of job j returned each time that a worker that had got to job j
      called it. */
  ghost function Returned(s: State, ls: seq<Label>, t: State, j: JobId): seq<Pointer>
    requires Run(s, ls, t)
    decreases |ls|
  {
    if ls == [] then [] else StepReturned(s, ls[0], j) + Returned(Apply(s, ls[0]), ls[1..], t, j)
  }

  ghost function StepReturned(s: State, l: Label, j: JobId): seq<Pointer>
    requires Enabled(s, l)
  {
    if l.RunFunction? && s.workers[l.w] == Exec(j) then [l.value] else []
  }

  // ----- what the records say -----

  function Callables(s: State): seq<bool> {
    seq(|s.jobs|, j requires 0 <= j < |s.jobs| => s.jobs[j].callable)
  }

  function Awaited(s: State): seq<JobId> {
    seq(|s.awaits|, a requires 0 <= a < |s.awaits| => s.awaits[a].job)
  }

  function CallsOf(s: State, j: JobId): seq<Pointer> {
    if j < |s.jobs| then s.jobs[j].calls else []
  }

  function CallCounts(s: State): seq<nat> {
    seq(|s.jobs|, j requires 0 <= j < |s.jobs| => |s.jobs[j].calls|)
  }

  // ----- one step -----

  ghost predicate SameCalls(s: State, t: State) {
    && |t.jobs| == |s.jobs| && |t.awaits| == |s.awaits|
    && (forall j | 0 <= j < |s.jobs| :: t.jobs[j].callable == s.jobs[j].callable && t.jobs[j].calls == s.jobs[j].calls)
    && (forall a | 0 <= a < |s.awaits| :: t.awaits[a].job == s.awaits[a].job)
  }

  predicate MakesCall(l: Label) {
    l.AddWork? || l.StartAwait? || l.RunFunction?
  }

  lemma WorkerKeepsCalls(s: State, w: nat)
    ensures CanDispatch(s, w) ==> SameCalls(s, DoDispatch(s, w))
    ensures CanExecute(s, w) ==> SameCalls(s, DoExecute(s, w))
  {
  }

  lemma StepKeepsCalls(s: State, l: Label)
    requires Enabled(s, l) && !MakesCall(l)
    ensures SameCalls(s, Apply(s, l))
  {
    match l
    case Dispatch(w) => WorkerKeepsCalls(s, w);
    case Execute(w) => WorkerKeepsCalls(s, w);
    case SignalResult(w, woken) => assert SameCalls(s, DoSignalResult(s, w, woken));
    case Submit(j) => assert SameCalls(s, DoSubmit(s, j));
    case SignalPool(j, woken) => assert SameCalls(s, DoSignalPool(s, j, woken));
    case StepAwait(a) => assert SameCalls(s, DoAwait(s, a));
    case _ =>
  }

  lemma StepRecords(s: State, l: Label)
    requires Enabled(s, l)
    ensures Callables(Apply(s, l)) == Callables(s) + FlagOf(l)
    ensures Awaited(Apply(s, l)) == Awaited(s) + TargetOf(l)
  {
    if !MakesCall(l) {
      StepKeepsCalls(s, l);
    }
  }

  lemma StepCalls(s: State, l: Label, j: JobId)
    requires Enabled(s, l)
    ensures CallsOf(Apply(s, l), j) == CallsOf(s, j) + StepReturned(s, l, j)
  {
    if !MakesCall(l) {
      StepKeepsCalls(s, l);
    }
  }

  lemma {:induction false} SumAppend(xs: seq<nat>, x: nat)
    ensures Sum(xs + [x]) == Sum(xs) + x
  {
    if xs == [] {
      assert xs + [x] == [x];
    } else {
      SumAppend(xs[1..], x);
      assert (xs + [x])[1..] == xs[1..] + [x];
    }
  }

  lemma StepCounts(s: State, l: Label)
    requires Enabled(s, l)
    ensures Sum(CallCounts(Apply(s, l))) == Sum(CallCounts(s)) + if l.RunFunction? then 1 else 0
  {
    var t := Apply(s, l);
    if !MakesCall(l) {
      StepKeepsCalls(s, l);
      assert CallCounts(t) == CallCounts(s);
    } else if l.RunFunction? {
      var j := s.workers[l.w].job;
      SumUpdate(CallCounts(s), j, |s.jobs[j].calls| + 1);
      assert CallCounts(t) == CallCounts(s)[j := |s.jobs[j].calls| + 1];
    } else if l.AddWork? {
      SumAppend(CallCounts(s), 0);
      assert CallCounts(t) == CallCounts(s) + [0];
    } else {
      assert CallCounts(t) == CallCounts(s);
    }
  }

  // ----- any run -----

  lemma {:induction false} RunCallables(s: State, ls: seq<Label>, t: State)
    requires Run(s, ls, t)
    ensures Callables(t) == Callables(s) + Flags(ls)
    decreases |ls|
  {
    if ls == [] {
      assert Callables(s) + [] == Callables(s);
    } else {
      StepRecords(s, ls[0]);
      RunCallables(Apply(s, ls[0]), ls[1..], t);
      Assoc(Callables(s), FlagOf(ls[0]), Flags(ls[1..]));
    }
  }

  lemma {:induction false} RunAwaited(s: State, ls: seq<Label>, t: State)
    requires Run(s, ls, t)
    ensures Awaited(t) == Awaited(s) + Targets(ls)
    decreases |ls|
  {
    if ls == [] {
      assert Awaited(s) + [] == Awaited(s);
    } else {
      StepRecords(s, ls[0]);
      RunAwaited(Apply(s, ls[0]), ls[1..], t);
      Assoc(Awaited(s), TargetOf(ls[0]), Targets(ls[1..]));
    }
  }

  lemma {:induction false} RunCounts(s: State, ls: seq<Label>, t: State)
    requires Run(s, ls, t)
    ensures Sum(CallCounts(t)) == Sum(CallCounts(s)) + FunctionCalls(ls)
    decreases |ls|
  {
    if ls != [] {
      StepCounts(s, ls[0]);
      RunCounts(Apply(s, ls[0]), ls[1..], t);
    }
  }

  lemma {:induction false} RunCalls(s: State, ls: seq<Label>, t: State, j: JobId)
    requires Run(s, ls, t)
    ensures CallsOf(t, j) == CallsOf(s, j) + Returned(s, ls, t, j)
    decreases |ls|
  {
    if ls != [] {
      StepCalls(s, ls[0], j);
      RunCalls(Apply(s, ls[0]), ls[1..], t, j);
    }
  }

  /** Over any run the jobs, the await calls and the calls of each job's function grow by
      exactly those of the labels. */
  lemma RecordsFollowLabels(s: State, ls: seq<Label>, t: State)
    requires Run(s, ls, t)
    ensures Callables(t) == Callables(s) + Flags(ls)
    ensures Awaited(t) == Awaited(s) + Targets(ls)
    ensures forall j: JobId :: CallsOf(t, j) == CallsOf(s, j) + Returned(s, ls, t, j)
    ensures Sum(CallCounts(t)) == Sum(CallCounts(s)) + FunctionCalls(ls)
  {
    RunCallables(s, ls, t);
    RunAwaited(s, ls, t);
    RunCounts(s, ls, t);
    forall j: JobId
      ensures CallsOf(t, j) == CallsOf(s, j) + Returned(s, ls, t, j)
    {
      RunCalls(s, ls, t, j);
    }
  }

  lemma {:induction false} SumOfFlags(counts: seq<nat>, flags: seq<bool>)
    requires |counts| == |flags|
    requires forall i | 0 <= i < |flags| :: counts[i] == if flags[i] then 1 else 0
    ensures Sum(counts) == CountTrue(flags)
  {
    if flags != [] {
      SumOfFlags(counts[1..], flags[1..]);
    }
  }

  /** A run of a new pool has the jobs and await calls that its labels make, no others. */
  lemma RecordsOfNewPool(s: State, ls: seq<Label>, t: State)
    requires Initial(s) && Run(s, ls, t)
    ensures Callables(t) == Flags(ls) && Awaited(t) == Targets(ls)
    ensures forall j: JobId :: CallsOf(t, j) == Returned(s, ls, t, j)
    ensures Sum(CallCounts(t)) == FunctionCalls(ls)
  {
    RecordsFollowLabels(s, ls, t);
    assert Callables(s) == [] && Awaited(s) == [] && CallCounts(s) == [];
  }

  /** Every function handed to the pool is called exactly once: in a run of a new pool that
      ends at rest there are as many calls of functions as functions were submitted, the
      function of each job was called once, by a worker that had got to that job, and what it
      returned is the job's result. A job without a function has failed. */
  lemma EveryFunctionRunsOnce(s: State, ls: seq<Label>, t: State)
    requires Initial(s) && Run(s, ls, t) && Quiescent(t)
    ensures FunctionCalls(ls) == CountTrue(Flags(ls))
    ensures |t.jobs| == |Flags(ls)|
    ensures forall j: JobId | j < |Flags(ls)| ::
              if Flags(ls)[j] then |Returned(s, ls, t, j)| == 1 && t.jobs[j].cell == Cell(0, Returned(s, ls, t, j)[0])
              else Returned(s, ls, t, j) == [] && t.jobs[j].cell == Cell(-1, NULL)
  {
    RecordsOfNewPool(s, ls, t);
    assert Reachable(t);
    QuiescentIsDrained(t);
    forall j: JobId | j < |t.jobs|
      ensures Flags(ls)[j] == t.jobs[j].callable && CallsOf(t, j) == Returned(s, ls, t, j) && Executed(t.jobs[j])
    {
      assert Callables(t)[j] == t.jobs[j].callable;
    }
    assert |t.jobs| == |Callables(t)| == |Flags(ls)|;
    SumOfFlags(CallCounts(t), Flags(ls));
  }

  /** Every await call that has returned gave what the function of the job it was called for
      returned, and the null pointer if that job was submitted without a function. */
  lemma AwaitAnswersItsCall(s: State, ls: seq<Label>, t: State, a: nat)
    requires Initial(s) && Run(s, ls, t)
    requires a < |t.awaits| && t.awaits[a].pc.AwReturned?
    ensures a < |Targets(ls)| && Targets(ls)[a] < |Flags(ls)|
    ensures var j := Targets(ls)[a];
            if Flags(ls)[j] then Returned(s, ls, t, j) == [t.awaits[a].pc.value] else t.awaits[a].pc.value == NULL
  {
    RecordsOfNewPool(s, ls, t);
    assert Reachable(t);
    AwaitReturnsResult(t, a);
    var j := t.awaits[a].job;
    assert |Callables(t)| == |t.jobs| && |Awaited(t)| == |t.awaits|;
    assert Awaited(t)[a] == j && Callables(t)[j] == t.jobs[j].callable;
    assert CallsOf(t, j) == Returned(s, ls, t, j);
  }

  // ----- every workload -----

  /** There are new pools of every size but 0. */
  lemma NewPools(n: nat)
    ensures n > 0 <==> exists s: State :: Initial(s) && |s.workers| == n
  {
    if n > 0 {
      var s := State(None, None, [], seq(n, i => WantPool), [], [], [], []);
      assert Initial(s) && |s.workers| == n;
    }
  }

  lemma {:induction false} Submissions(s: State, flags: seq<bool>) returns (ls: seq<Label>, t: State)
    ensures Run(s, ls, t) && Flags(ls) == flags
    decreases |flags|
  {
    if flags == [] {
      ls, t := [], s;
    } else {
      ls, t := Submissions(Apply(s, AddWork(flags[0])), flags[1..]);
      ls := [AddWork(flags[0])] + ls;
    }
  }

  lemma {:induction false} FlagsConcat(ls: seq<Label>, ms: seq<Label>)
    requires AllInternal(ms)
    ensures Flags(ls + ms) == Flags(ls)
  {
    if ls != [] {
      assert (ls + ms)[1..] == ls[1..] + ms;
      FlagsConcat(ls[1..], ms);
    } else if ms != [] {
      assert ls + ms == ms;
      assert Internal(ms[0]);
      FlagsConcat([], ms[1..]);
      assert [] + ms[1..] == ms[1..];
    }
  }

  /** On every new pool every list of jobs, with and without functions, can be submitted, and
      the run can be completed to a rest at which all their functions were called. */
  lemma EveryWorkloadFinishes(s: State, flags: seq<bool>) returns (ls: seq<Label>, t: State)
    requires Initial(s)
    ensures Run(s, ls, t) && Quiescent(t) && Flags(ls) == flags
    ensures FunctionCalls(ls) == CountTrue(flags)
  {
    var us, u := Submissions(s, flags);
    var vs;
    vs, t := AlwaysDrains(u);
    RunConcat(s, us, u, vs, t);
    ls := us + vs;
    FlagsConcat(us, vs);
    EveryFunctionRunsOnce(s, ls, t);
  }
}
