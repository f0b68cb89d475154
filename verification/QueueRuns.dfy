/**
 One consumer of the write queue: top-level calls register their handler and add a job, one
 worker takes jobs in order and runs them step by step while more calls arrive, and each
 caller gets what the worker's result or error envelope turns into.
 */
module QueueRuns {
  import opened QueueCode

  // ---------------------------------------------------------------- the error envelope

  /** What travels back from a failed job: the serialised exception, or any other text. */
  datatype Failure = Envelope(status: int, response: Json) | Text(message: string)

  /** What becomes of one job. */
  datatype JobResult = Completed(v: Json) | FailedJob(failure: Failure)

  function MessageBody(message: string): Json {
    JObj([("message", JStr(message))])
  }

  /** The worker's side: status and response of an HTTP exception, 500 and the message else. */
  function Serialize(e: Exn): Failure {
    match e
    case Http(status, response) => Envelope(status, response)
    case Plain(message) => Envelope(500, MessageBody(message))
  }

  function WorkerResult(o: Outcome): JobResult {
    match o
    case Value(v) => Completed(v)
    case Raised(e) => FailedJob(Serialize(e))
  }

  /** The caller's side: an envelope becomes the HTTP exception again, anything else a 500. */
  function CallerOutcome(r: JobResult): Outcome {
    match r
    case Completed(v) => Value(v)
    case FailedJob(Envelope(status, response)) => Raised(Http(status, response))
    case FailedJob(Text(message)) => Raised(Http(500, MessageBody(message)))
  }

  /** Going through the worker and back changes no value and no HTTP exception, and nothing
      but other exceptions. */
  lemma EnvelopeIsTransparentIff(o: Outcome)
    ensures CallerOutcome(WorkerResult(o)) == o <==> !(o.Raised? && o.e.Plain?)
  {
  }

  /** What callers of other failures get: the message of any other exception, or the text of a
      job that failed without one, as a 500. */
  lemma OtherFailuresBecome500(message: string)
    ensures CallerOutcome(WorkerResult(Raised(Plain(message)))) == Raised(Http(500, JObj([("message", JStr(message))])))
    ensures CallerOutcome(FailedJob(Text(message))) == Raised(Http(500, JObj([("message", JStr(message))])))
  {
  }

  // ---------------------------------------------------------------- the machine

  datatype Job = Job(key: string, args: Json)

  datatype Worker<!S(!new)> = Idle | Busy(job: Job, task: Task<S>)

  /** `calls` counts the top-level calls made; `adding` are the jobs of those whose handler is
      set but which are not in the queue yet; `enqueued` are all jobs ever added, in order;
      `results` those of the first jobs, in the same order. */
  datatype State<!S(!new)> = State(
    store: S,
    handlers: map<string, Code<S>>,
    calls: nat,
    adding: map<nat, Job>,
    queue: seq<Job>,
    worker: Worker<S>,
    enqueued: seq<Job>,
    results: seq<JobResult>)

  datatype Action<!S(!new)> =
    | Call(key: string, fn: Code<S>, args: Json)
    | Add(call: nat)
    | Take
    | Work

  function Initial<S(!new)>(store: S): State<S> {
    State(store, map[], 0, map[], [], Idle, [], [])
  }

  function NoHandler(key: string): JobResult {
    FailedJob(Text("No handler for job: " + key))
  }

  function Step<S(!new)>(s: State<S>, a: Action<S>): State<S> {
    match a
    case Call(key, fn, args) =>
      // outside a worker, with a registry: the wrapper dispatches
      s.(handlers := s.handlers[key := fn], calls := s.calls + 1, adding := s.adding[s.calls := Job(key, args)])
    case Add(call) =>
      if call !in s.adding then s else Added(s.(adding := s.adding - {call}), s.adding[call])
    case Take =>
      if s.worker.Busy? || s.queue == [] then s
      else
        var job := s.queue[0];
        if job.key !in s.handlers then s.(queue := s.queue[1..], results := s.results + [NoHandler(job.key)])
        else s.(queue := s.queue[1..], worker := Busy(job, Started(s.handlers[job.key], job.args)))
    case Work =>
      match s.worker
      case Idle => s
      case Busy(job, Finished(outcome)) => s.(worker := Idle, results := s.results + [WorkerResult(outcome)])
      case Busy(job, Dispatching(inWorker, key, callee, arg, stack)) =>
        Added(s.(handlers := s.handlers[key := callee], worker := Busy(job, Waiting(inWorker, |s.enqueued|, stack))),
              Job(key, arg))
      case Busy(job, Waiting(inWorker, id, stack)) =>
        if id >= |s.results| then s else s.(worker := Busy(job, Answer(inWorker, CallerOutcome(s.results[id]), stack)))
      case Busy(job, task) =>
        var (task', store') := TaskStep(true, task, s.store);
        s.(store := store', worker := Busy(job, task'))
  }

  function Added<S(!new)>(s: State<S>, job: Job): State<S> {
    s.(queue := s.queue + [job], enqueued := s.enqueued + [job])
  }

  /** The worker runs a handler in the processing context. */
  function Started<S(!new)>(fn: Code<S>, args: Json): Task<S> {
    Running(true, fn, [args], [])
  }

  function Answer<S(!new)>(inWorker: bool, outcome: Outcome, stack: seq<Frame<S>>): Task<S> {
    match outcome
    case Value(v) => Deliver(inWorker, v, stack)
    case Raised(e) => Unwind(inWorker, e, stack)
  }

  ghost function Exec<S(!new)>(s: State<S>, actions: seq<Action<S>>): State<S>
    decreases |actions|
  {
    if actions == [] then s else Exec(Step(s, actions[0]), actions[1..])
  }

  /** Each job key is dispatched with one function only. */
  ghost predicate OneFunctionPerKey<S(!new)>(impl: string -> Code<S>, actions: seq<Action<S>>) {
    forall a | a in actions && a.Call? :: a.fn == impl(a.key)
  }

  /** Direct execution of the jobs one after another. */
  ghost function Serial<S(!new)>(impl: string -> Code<S>, store: S, jobs: seq<Job>): (S, seq<Outcome>)
    decreases |jobs|
  {
    if jobs == [] then (store, [])
    else
      var n := |jobs| - 1;
      var (before, outcomes) := Serial(impl, store, jobs[..n]);
      var (after, outcome) := Run(impl(jobs[n].key), before, [jobs[n].args]);
      (after, outcomes + [outcome])
  }

  ghost predicate HandlersKnown<S(!new)>(impl: string -> Code<S>, s: State<S>) {
    && (forall k | k in s.handlers :: s.handlers[k] == impl(k))
    && (forall j | j in s.adding.Values || j in s.queue :: j.key in s.handlers)
  }

  /** The results so far are those of direct execution, seen through the worker. */
  ghost predicate ResultsMatch(results: seq<JobResult>, outcomes: seq<Outcome>) {
    |results| == |outcomes| && forall k | 0 <= k < |results| :: results[k] == WorkerResult(outcomes[k])
  }

  /** The enqueued jobs are those done, the one in progress and those waiting; the store is
      where direct execution of the done jobs left it, or on its way to the next. */
  ghost predicate InOrder<S(!new)>(impl: string -> Code<S>, store0: S, s: State<S>) {
    var n := |s.results|;
    && n <= |s.enqueued|
    && ResultsMatch(s.results, Serial(impl, store0, s.enqueued[..n]).1)
    && match s.worker
       case Idle => s.enqueued[n..] == s.queue && s.store == Serial(impl, store0, s.enqueued[..n]).0
       case Busy(job, task) =>
         && n < |s.enqueued| && s.enqueued[n] == job && s.enqueued[n + 1..] == s.queue
         && RunsInPlace(true, task)
         && Completion(task, s.store) == Run(impl(job.key), Serial(impl, store0, s.enqueued[..n]).0, [job.args])
  }

  ghost predicate RunOk<S(!new)>(impl: string -> Code<S>, store0: S, s: State<S>) {
    HandlersKnown(impl, s) && InOrder(impl, store0, s)
  }

  lemma SerialStep<S(!new)>(impl: string -> Code<S>, store: S, jobs: seq<Job>, n: nat)
    requires n < |jobs|
    ensures var (before, outcomes) := Serial(impl, store, jobs[..n]);
      var (after, outcome) := Run(impl(jobs[n].key), before, [jobs[n].args]);
      Serial(impl, store, jobs[..n + 1]) == (after, outcomes + [outcome])
  {
    assert jobs[..n + 1][..n] == jobs[..n];
  }

  lemma TakeKeeps<S(!new)>(impl: string -> Code<S>, store0: S, s: State<S>)
    requires RunOk(impl, store0, s)
    ensures RunOk(impl, store0, Step(s, Take))
  {
    if s.worker.Idle? && s.queue != [] {
      var job := s.queue[0];
      assert job in s.queue;
      assert s.enqueued[|s.results|..][0] == job;
      var task := Started(s.handlers[job.key], job.args);
      assert Completion(task, s.store) == Run(impl(job.key), s.store, [job.args]);
    }
  }

  lemma WorkKeeps<S(!new)>(impl: string -> Code<S>, store0: S, s: State<S>)
    requires RunOk(impl, store0, s)
    ensures RunOk(impl, store0, Step(s, Work))
  {
    match s.worker
    case Idle =>
    case Busy(job, task) =>
      if task.Finished? {
        SerialStep(impl, store0, s.enqueued, |s.results|);
      } else {
        StepKeepsCompletion(true, task, s.store);
      }
  }

  lemma AddKeeps<S(!new)>(impl: string -> Code<S>, store0: S, s: State<S>, call: nat)
    requires RunOk(impl, store0, s) && call in s.adding
    ensures RunOk(impl, store0, Step(s, Add(call)))
  {
    var s' := Step(s, Add(call));
    var n := |s.results|;
    assert s.adding[call] in s.adding.Values;
    assert s'.enqueued[..n] == s.enqueued[..n];
    if s.worker.Idle? {
      assert s'.enqueued[n..] == s.enqueued[n..] + [s.adding[call]];
    } else {
      assert s'.enqueued[n + 1..] == s.enqueued[n + 1..] + [s.adding[call]];
    }
  }

  lemma StepKeeps<S(!new)>(impl: string -> Code<S>, store0: S, s: State<S>, a: Action<S>)
    requires RunOk(impl, store0, s) && (a.Call? ==> a.fn == impl(a.key))
    ensures RunOk(impl, store0, Step(s, a))
  {
    match a
    case Call(_, _, _) =>
    case Add(call) => if call in s.adding { AddKeeps(impl, store0, s, call); }
    case Take => TakeKeeps(impl, store0, s);
    case Work => WorkKeeps(impl, store0, s);
  }

  lemma {:induction false} ExecKeeps<S(!new)>(impl: string -> Code<S>, store0: S, s: State<S>, actions: seq<Action<S>>)
    requires RunOk(impl, store0, s) && OneFunctionPerKey(impl, actions)
    ensures RunOk(impl, store0, Exec(s, actions))
    decreases |actions|
  {
    if actions != [] {
      assert actions[0] in actions;
      StepKeeps(impl, store0, s, actions[0]);
      assert forall a | a in actions[1..] :: a in actions;
      ExecKeeps(impl, store0, Step(s, actions[0]), actions[1..]);
    }
  }

  /** Every run is direct execution of the jobs in the order they were added: the n finished
      jobs have the outcomes of the first n jobs executed directly one after another, each
      passed through the envelope; and a worker at rest leaves exactly their store. */
  lemma SerialRefinement<S(!new)>(impl: string -> Code<S>, store0: S, actions: seq<Action<S>>)
    requires OneFunctionPerKey(impl, actions)
    ensures var s := Exec(Initial(store0), actions);
      var n := |s.results|;
      && n <= |s.enqueued|
      && var (store, outcomes) := Serial(impl, store0, s.enqueued[..n]);
      && ResultsMatch(s.results, outcomes)
      && (s.worker.Idle? ==> s.store == store && s.queue == s.enqueued[n..])
  {
    ExecKeeps(impl, store0, Initial(store0), actions);
  }

  /** Callers of methods that return or raise HTTP exceptions get exactly what direct
      execution in queue order gives; in particular no job misses its handler. */
  lemma CallersSeeDirectOutcomes<S(!new)>(impl: string -> Code<S>, store0: S, actions: seq<Action<S>>, k: nat)
    requires OneFunctionPerKey(impl, actions) && k < |Exec(Initial(store0), actions).results|
    ensures var s := Exec(Initial(store0), actions);
      && k < |s.enqueued|
      && var outcomes := Serial(impl, store0, s.enqueued[..k + 1]).1;
      && |outcomes| == k + 1
      && (CallerOutcome(s.results[k]) == outcomes[k] <==> !(outcomes[k].Raised? && outcomes[k].e.Plain?))
  {
    SerialRefinement(impl, store0, actions);
    var s := Exec(Initial(store0), actions);
    SerialPrefix(impl, store0, s.enqueued[..|s.results|], k + 1);
    assert s.enqueued[..|s.results|][..k + 1] == s.enqueued[..k + 1];
    EnvelopeIsTransparentIff(Serial(impl, store0, s.enqueued[..k + 1]).1[k]);
  }

  /** Later jobs do not change the outcomes of earlier ones. */
  lemma {:induction false} SerialPrefix<S(!new)>(impl: string -> Code<S>, store: S, jobs: seq<Job>, n: nat)
    requires n <= |jobs|
    ensures |Serial(impl, store, jobs).1| == |jobs|
    ensures Serial(impl, store, jobs[..n]).1 == Serial(impl, store, jobs).1[..n]
    decreases |jobs|
  {
    if jobs != [] {
      var front := jobs[..|jobs| - 1];
      if n < |jobs| {
        SerialPrefix(impl, store, front, n);
        assert front[..n] == jobs[..n];
      } else {
        SerialPrefix(impl, store, front, |front|);
        assert jobs[..n] == jobs;
      }
    }
  }

  // ---------------------------------------------------------------- one job per call, no waiting

  function CallCount<S(!new)>(actions: seq<Action<S>>): nat {
    if actions == [] then 0 else (if actions[0].Call? then 1 else 0) + CallCount(actions[1..])
  }

  /** The calls in `adding` were made, and the worker, if busy, is in the processing context. */
  ghost predicate InContext<S(!new)>(s: State<S>) {
    && (forall call | call in s.adding :: call < s.calls)
    && (s.worker.Busy? ==> RunsInPlace(true, s.worker.task))
  }

  /** No step of a worker in the processing context adds a job. */
  lemma WorkAddsNothing<S(!new)>(s: State<S>)
    requires InContext(s)
    ensures var s' := Step(s, Work);
      && InContext(s') && s'.calls == s.calls
      && s'.enqueued == s.enqueued && s'.adding == s.adding && s'.queue == s.queue
  {
    hide TaskStep;
    if s.worker.Busy? {
      StepKeepsCompletion(true, s.worker.task, s.store);
    }
  }

  lemma StepAddsNothingElse<S(!new)>(s: State<S>, a: Action<S>)
    requires InContext(s)
    ensures var s' := Step(s, a);
      && InContext(s')
      && |s'.adding| + |s'.enqueued| == |s.adding| + |s.enqueued| + (if a.Call? then 1 else 0)
  {
    hide TaskStep;
    match a
    case Call(key, _, args) =>
      assert s.adding[s.calls := Job(key, args)].Keys == s.adding.Keys + {s.calls};
    case Add(call) =>
      assert (s.adding - {call}).Keys == s.adding.Keys - {call};
    case Work => WorkAddsNothing(s);
    case Take =>
  }

  /** Each top-level call becomes exactly one job, and nested calls become none: the worker's
      steps, through any number of nested decorated calls, add nothing to the queue. */
  lemma {:induction false} OneJobPerTopLevelCall<S(!new)>(s: State<S>, actions: seq<Action<S>>)
    requires InContext(s)
    ensures var s' := Exec(s, actions);
      && InContext(s')
      && |s'.adding| + |s'.enqueued| == |s.adding| + |s.enqueued| + CallCount(actions)
    decreases |actions|
  {
    hide Step, InContext;
    if actions != [] {
      StepAddsNothingElse(s, actions[0]);
      OneJobPerTopLevelCall(Step(s, actions[0]), actions[1..]);
    }
  }

  /** The worker awaits a job that comes after its own in the queue. */
  ghost predicate WaitsOnItsOwnQueue<S(!new)>(s: State<S>) {
    s.worker.Busy? && s.worker.task.Waiting? && s.worker.task.id >= |s.results|
  }

  /** A worker that waits on its own queue waits forever: no job is ever finished again. */
  lemma {:induction false} WaitingOnItsOwnQueueIsForever<S(!new)>(s: State<S>, actions: seq<Action<S>>)
    requires WaitsOnItsOwnQueue(s)
    ensures WaitsOnItsOwnQueue(Exec(s, actions)) && Exec(s, actions).results == s.results
    decreases |actions|
  {
    if actions != [] {
      assert WaitsOnItsOwnQueue(Step(s, actions[0])) && Step(s, actions[0]).results == s.results;
      WaitingOnItsOwnQueueIsForever(Step(s, actions[0]), actions[1..]);
    }
  }

  /** The processing context is what prevents this. Two steps after a worker reaches a nested
      decorated call, a job has been added and the worker waits for it forever exactly when it
      runs its handler outside the context. */
  lemma NestedCallBlocksIffOutsideContext<S(!new)>(s: State<S>)
    requires s.worker.Busy? && s.worker.task.Running? && s.worker.task.code.Call?
    requires |s.results| <= |s.enqueued|
    ensures WaitsOnItsOwnQueue(Step(Step(s, Work), Work)) <==> !s.worker.task.inWorker
    ensures |Step(Step(s, Work), Work).enqueued| == |s.enqueued| + (if s.worker.task.inWorker then 0 else 1)
  {
    var Running(inWorker, code, env, stack) := s.worker.task;
    if inWorker {
      var s1 := Step(s, Work);
      var callers := stack + [Frame(env, code.next, code.onError)];
      assert s1.worker.task == Running(true, code.callee, [code.arg(env)], callers);
      StepKeepsCompletion(true, s1.worker.task, s1.store);
    }
  }

  function Repeat<S(!new)>(n: nat): seq<Action<S>> {
    seq(n, _ => Work)
  }

  /** A busy worker finishes its job by its own steps, as many as the method is long: it never
      waits for another job, so it cannot wait on its own queue. */
  lemma {:induction false} WorkerFinishesAlone<S(!new)>(s: State<S>, n: nat)
    requires s.worker.Busy? && RunsInPlace(true, s.worker.task) && n > Remaining(s.worker.task)
    ensures var s' := Exec(s, Repeat<S>(n));
      s'.worker.Idle? && |s'.results| == |s.results| + 1 && s'.queue == s.queue && s'.enqueued == s.enqueued
    decreases n
  {
    var s1 := Step(s, Work);
    assert Repeat<S>(n)[0] == Work && Repeat<S>(n)[1..] == Repeat<S>(n - 1);
    if s.worker.task.Finished? {
      IdleWorkChangesNothing(s1, n - 1);
    } else {
      WorkerStepShrinks(true, s.worker.task, s.store);
      StepKeepsCompletion(true, s.worker.task, s.store);
      WorkerFinishesAlone(s1, n - 1);
    }
  }

  lemma {:induction false} IdleWorkChangesNothing<S(!new)>(s: State<S>, n: nat)
    requires s.worker.Idle?
    ensures Exec(s, Repeat<S>(n)) == s
    decreases n
  {
    if n > 0 {
      assert Repeat<S>(n)[0] == Work && Repeat<S>(n)[1..] == Repeat<S>(n - 1);
      IdleWorkChangesNothing(s, n - 1);
    }
  }
}
