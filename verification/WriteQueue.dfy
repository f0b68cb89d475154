/**
 The write queue as it runs: consumers whose worker runs jobs in order while more calls
 arrive, the dispatch that a decorated method turns into, and the registry that creates one
 consumer per key while other calls go on. Every method is shown to be a run of the machine
 it belongs to, so what holds of every run holds of the queue.
 */
module WriteQueue {
  import opened QueueCode
  import opened QueueRuns
  import Registry = RegistryRuns

  // ---------------------------------------------------------------- a consumer

  lemma {:induction false} ExecSnoc<S(!new)>(s: State<S>, actions: seq<Action<S>>, a: Action<S>)
    ensures Exec(s, actions + [a]) == Step(Exec(s, actions), a)
    decreases |actions|
  {
    hide Step;
    if actions == [] {
      assert [] + [a] == [a] && [a][1..] == [];
      assert Exec(s, [a]) == Exec(Step(s, a), []);
    } else {
      assert (actions + [a])[0] == actions[0] && (actions + [a])[1..] == actions[1..] + [a];
      ExecSnoc(Step(s, actions[0]), actions[1..], a);
    }
  }

  /** Top-level calls of others and the arrival of their jobs in the queue. */
  ghost predicate Arrivals<S(!new)>(actions: seq<Action<S>>) {
    forall a | a in actions :: a.Call? || a.Add?
  }

  /** What others may do before call `call` has been added. */
  ghost predicate Leaves<S(!new)>(actions: seq<Action<S>>, call: nat) {
    forall a | a in actions :: !(a.Add? && a.call == call)
  }

  /** Jobs stay in the queue's record and results stay given. */
  ghost predicate Extends<S(!new)>(s: State<S>, s': State<S>) {
    s.enqueued <= s'.enqueued && s.results <= s'.results && s.calls <= s'.calls
  }

  lemma StepExtends<S(!new)>(s: State<S>, a: Action<S>)
    ensures Extends(s, Step(s, a))
  {
    hide TaskStep;
  }

  lemma StepLeaves<S(!new)>(s: State<S>, a: Action<S>, call: nat)
    requires call in s.adding && call < s.calls && Leaves([a], call)
    ensures call in Step(s, a).adding && Step(s, a).adding[call] == s.adding[call]
  {
    hide TaskStep;
    assert a in [a];
  }

  /** A queue with its worker and the handlers both share. `impl` is the one function behind
      each job key, `store0` the store when the worker started on an empty queue. */
  class Consumer<S(!new)> {
    ghost const impl: string -> Code<S>
    ghost const store0: S
    var store: S
    var handlers: map<string, Code<S>>
    var calls: nat
    var adding: map<nat, Job>
    var queue: seq<Job>
    var worker: Worker<S>
    var enqueued: seq<Job>
    var results: seq<JobResult>
    ghost var history: seq<Action<S>>

    constructor (ghost impl: string -> Code<S>, store: S)
      ensures Valid() && this.impl == impl && this.store0 == store && Here() == Initial(store)
    {
      this.impl, this.store0 := impl, store;
      this.store, handlers, calls, adding := store, map[], 0, map[];
      queue, worker, enqueued, results := [], Idle, [], [];
      history := [];
    }

    ghost function Here(): State<S>
      reads this
    {
      State(store, handlers, calls, adding, queue, worker, enqueued, results)
    }

    /** The state is the outcome of the recorded history, and the machine's invariant holds. */
    ghost predicate Valid()
      reads this
    {
      && Here() == Exec(Initial(store0), history)
      && RunOk(impl, store0, Here()) && InContext(Here())
    }

    ghost method Record(a: Action<S>, before: State<S>)
      requires before == Exec(Initial(store0), history) && RunOk(impl, store0, before) && InContext(before)
      requires Here() == Step(before, a) && (a.Call? ==> a.fn == impl(a.key))
      modifies this`history
      ensures Valid() && history == old(history) + [a] && Extends(before, Here())
    {
      hide Step, RunOk, InContext;
      ExecSnoc(Initial(store0), history, a);
      StepKeeps(impl, store0, before, a);
      StepAddsNothingElse(before, a);
      StepExtends(before, a);
      history := history + [a];
    }

    /** What others do while call `call` waits to be added. */
    method Await(actions: seq<Action<S>>, call: nat)
      requires Valid() && OneFunctionPerKey(impl, actions)
      requires Leaves(actions, call) && call in adding
      modifies this
      ensures Valid() && Extends(old(Here()), Here()) && history == old(history) + actions
      ensures call in adding && adding[call] == old(adding)[call]
    {
      hide Exec, RunOk;
      for k := 0 to |actions|
        invariant Valid() && Extends(old(Here()), Here()) && history == old(history) + actions[..k]
        invariant call in adding && adding[call] == old(adding)[call]
      {
        var a := actions[k];
        ghost var before := Here();
        StepLeaves(before, a, call);
        MakeStep(a);
        assert actions[..k] + [a] == actions[..k + 1];
      }
      assert actions[..|actions|] == actions;
    }

    method MakeStep(a: Action<S>)
      requires Valid() && (a.Call? ==> a.fn == impl(a.key))
      modifies this
      ensures Valid() && Here() == Step(old(Here()), a) && Extends(old(Here()), Here())
      ensures history == old(history) + [a]
    {
      hide Step, RunOk, InContext, Exec;
      ghost var before := Here();
      var s := Step(State(store, handlers, calls, adding, queue, worker, enqueued, results), a);
      store, handlers, calls, adding := s.store, s.handlers, s.calls, s.adding;
      queue, worker, enqueued, results := s.queue, s.worker, s.enqueued, s.results;
      Record(a, before);
    }

    /** Calls of others that arrive while the worker is at work: they do not touch it. */
    method Arrive(actions: seq<Action<S>>)
      requires Valid() && OneFunctionPerKey(impl, actions) && Arrivals(actions)
      modifies this
      ensures Valid() && Extends(old(Here()), Here()) && history == old(history) + actions
      ensures store == old(store) && worker == old(worker) && results == old(results)
      ensures old(queue) <= queue
    {
      hide Exec, RunOk, InContext;
      for k := 0 to |actions|
        invariant Valid() && Extends(old(Here()), Here()) && history == old(history) + actions[..k]
        invariant store == old(store) && worker == old(worker) && results == old(results) && old(queue) <= queue
      {
        MakeStep(actions[k]);
        assert actions[..k] + [actions[k]] == actions[..k + 1];
      }
      assert actions[..|actions|] == actions;
    }

    /** The worker takes the oldest job; its handler is always set. */
    method TakeJob()
      requires Valid() && worker.Idle? && queue != []
      modifies this
      ensures Valid() && history == old(history) + [Take] && Extends(old(Here()), Here())
      ensures worker == Busy(old(queue)[0], Started(impl(old(queue)[0].key), old(queue)[0].args))
      ensures queue == old(queue)[1..] && store == old(store) && results == old(results)
    {
      hide Exec, TaskStep;
      ghost var before := Here();
      var job := queue[0];
      assert job in queue;
      queue := queue[1..];
      worker := Busy(job, Running(true, handlers[job.key], [job.args], []));
      Record(Take, before);
    }

    /** The worker runs the job in progress to its end, nested calls in place, while calls of
        others arrive at every step; an exception is serialised for the caller. */
    method FinishJob(arrivals: nat -> seq<Action<S>>)
      requires Valid() && worker.Busy?
      requires forall n :: OneFunctionPerKey(impl, arrivals(n)) && Arrivals(arrivals(n))
      modifies this
      ensures Valid() && Extends(old(Here()), Here()) && old(queue) <= queue && worker.Idle?
      ensures RunsInPlace(true, old(worker).task)
      ensures store == Completion(old(worker).task, old(store)).0
      ensures results == old(results) + [WorkerResult(Completion(old(worker).task, old(store)).1)]
    {
      hide Exec, RunOk, TaskStep, Completion, OneFunctionPerKey, Arrivals;
      var job, task := worker.job, worker.task;
      ghost var meaning := Completion(task, store);
      var n: nat := 0;
      while task.Running?
        invariant Valid() && Extends(old(Here()), Here()) && old(queue) <= queue
        invariant worker == Busy(job, task) && RunsInPlace(true, task)
        invariant Completion(task, store) == meaning && results == old(results)
        decreases Remaining(task)
      {
        Arrive(arrivals(n));
        StepKeepsCompletion(true, task, store);
        WorkerStepShrinks(true, task, store);
        ghost var before := Here();
        var (next, after) := TaskStep(true, task, store);
        task, store := next, after;
        worker := Busy(job, task);
        Record(Work, before);
        n := n + 1;
      }
      FinishedCompletion(task, store);
      ghost var before := Here();
      worker := Idle;
      results := results + [WorkerResult(task.outcome)];
      Record(Work, before);
    }

    /** The worker works through the queue, whatever arrives, until job `id` is done. */
    method WorkUntil(id: nat, arrivals: (nat, nat) -> seq<Action<S>>)
      requires Valid() && id < |enqueued|
      requires forall m, n :: OneFunctionPerKey(impl, arrivals(m, n)) && Arrivals(arrivals(m, n))
      modifies this
      ensures Valid() && Extends(old(Here()), Here()) && id < |results|
    {
      hide Exec, OneFunctionPerKey, Arrivals, RunsInPlace, ResultsMatch, Serial, HandlersKnown, Completion;
      var m: nat := 0;
      while |results| <= id
        invariant Valid() && Extends(old(Here()), Here()) && id < |enqueued|
        decreases id + 1 - |results|
      {
        if worker.Idle? {
          assert enqueued[|results|..] == queue;
          TakeJob();
        }
        FinishJob((n: nat) => arrivals(m, n));
        m := m + 1;
      }
    }

    /** The handler of a call is set; its job waits to be added. */
    method SetHandler(job: string, fn: Code<S>, args: Json) returns (call: nat)
      requires Valid() && fn == impl(job)
      modifies this
      ensures Valid() && Extends(old(Here()), Here()) && history == old(history) + [Action.Call(job, fn, args)]
      ensures call == old(calls) && call in adding && adding[call] == Job(job, args) && handlers[job := fn] == handlers
    {
      hide Exec, RunOk, InContext;
      ghost var before := Here();
      call := calls;
      handlers := handlers[job := fn];
      calls := calls + 1;
      adding := adding[call := Job(job, args)];
      Record(Action.Call(job, fn, args), before);
    }

    /** The job of a call is added at the end of the queue. */
    method AddJob(call: nat) returns (id: nat)
      requires Valid() && call in adding
      modifies this
      ensures Valid() && Extends(old(Here()), Here()) && history == old(history) + [Add(call)]
      ensures id == |old(enqueued)| && enqueued == old(enqueued) + [old(adding)[call]]
      ensures queue == old(queue) + [old(adding)[call]]
    {
      hide Exec, RunOk, InContext;
      ghost var before := Here();
      id := |enqueued|;
      queue := queue + [adding[call]];
      enqueued := enqueued + [adding[call]];
      adding := adding - {call};
      Record(Add(call), before);
    }

    /** A dispatched call: its handler is set, its job is added, and the caller waits until the
        worker has done it; other calls go on all the while. The answer is that of direct
        execution after all jobs added earlier, seen through the error envelope. */
    method Dispatch(job: string, fn: Code<S>, args: Json, before: seq<Action<S>>, arrivals: (nat,
        nat) -> seq<Action<S>>)
        returns (id: nat, outcome: Outcome)
      requires Valid() && fn == impl(job)
      requires OneFunctionPerKey(impl, before) && Leaves(before, calls)
      requires forall m, n :: OneFunctionPerKey(impl, arrivals(m, n)) && Arrivals(arrivals(m, n))
      modifies this
      ensures Valid() && Extends(old(Here()), Here())
      ensures |old(enqueued)| <= id < |enqueued| && enqueued[id] == Job(job, args)
      ensures var (store, _) := Serial(impl, store0, enqueued[..id]);
        outcome == CallerOutcome(WorkerResult(Run(fn, store, [args]).1))
    {
      hide Exec, RunOk, InContext, OneFunctionPerKey, Arrivals, Leaves, Run, Serial;
      var call := SetHandler(job, fn, args);
      Await(before, call);
      id := AddJob(call);
      WorkUntil(id, arrivals);
      outcome := CallerOutcome(results[id]);
      ResultIsDirect(impl, store0, Here(), id);
    }
  }

  lemma FinishedCompletion<S(!new)>(task: Task<S>, store: S)
    requires task.Finished?
    ensures Completion(task, store) == (store, task.outcome)
  {
  }

  lemma ResultIsDirect<S(!new)>(impl: string -> Code<S>, store0: S, s: State<S>, id: nat)
    requires RunOk(impl, store0, s) && id < |s.results| && id < |s.enqueued|
    ensures var (store, _) := Serial(impl, store0, s.enqueued[..id]);
      s.results[id] == WorkerResult(Run(impl(s.enqueued[id].key), store, [s.enqueued[id].args]).1)
  {
    hide HandlersKnown, Run, Completion;
    var jobs := s.enqueued[..|s.results|];
    SerialPrefix(impl, store0, jobs, id + 1);
    assert jobs[..id + 1] == s.enqueued[..id + 1];
    SerialStep(impl, store0, s.enqueued, id);
    SerialPrefix(impl, store0, s.enqueued[..id], id);
  }

  // ---------------------------------------------------------------- the registry

  /** What others may do while task `task` waits. */
  predicate LeavesTask(actions: seq<Registry.Action>, task: nat) {
    forall a | a in actions :: a != Registry.Proceed(task)
  }

  lemma {:induction false} TaskWaits(s: Registry.State, actions: seq<Registry.Action>, task: nat)
    requires task < |s.tasks| && LeavesTask(actions, task)
    ensures var s' := Registry.Exec(s, actions);
      && task < |s'.tasks| && s'.tasks[task] == s.tasks[task]
      && s.consumers.Keys <= s'.consumers.Keys
    decreases |actions|
  {
    if actions != [] {
      assert actions[0] in actions && forall a | a in actions[1..] :: a in actions;
      TaskWaits(Registry.Step(s, actions[0]), actions[1..], task);
    }
  }

  /** Creates one worker per key. A consumer is known by its worker; its handlers are the job
      keys that worker can run. */
  class WriteQueueRegistry {
    var consumers: map<string, nat>
    var workers: seq<string>             // the key of every worker ever started
    var handlers: seq<set<string>>
    var tasks: seq<Registry.Task>        // how far each call of EnsureConsumer is
    ghost var history: seq<Registry.Action>

    constructor ()
      ensures Valid() && history == []
    {
      consumers, workers, handlers, tasks := map[], [], [], [];
      history := [];
    }

    ghost function Here(): Registry.State
      reads this
    {
      Registry.State(consumers, workers, handlers, tasks)
    }

    /** The state is the outcome of the recorded history. */
    ghost predicate Valid()
      reads this
    {
      Here() == Registry.Exec(Registry.EMPTY, history) && |handlers| == |workers|
      && forall k | k in consumers :: consumers[k] < |workers|
    }

    ghost method Record(a: Registry.Action, before: Registry.State)
      requires before == Registry.Exec(Registry.EMPTY, history) && Here() == Registry.Step(before, a)
      requires |handlers| == |workers| && forall k | k in consumers :: consumers[k] < |workers|
      modifies this`history
      ensures Valid() && history == old(history) + [a]
    {
      hide Registry.Step;
      Registry.ExecAppend(Registry.EMPTY, history, [a]);
      assert [a][1..] == [];
      assert Registry.Exec(before, [a]) == Registry.Exec(Registry.Step(before, a), []);
      history := history + [a];
    }

    /** What other calls do while task `task` waits for its connection. */
    method Await(actions: seq<Registry.Action>, task: nat)
      requires Valid() && task < |tasks| && LeavesTask(actions, task)
      requires tasks[task].Connecting? ==> tasks[task].worker < |workers|
      modifies this
      ensures Valid() && history == old(history) + actions && Here() == Registry.Exec(old(Here()), actions)
      ensures task < |tasks| && tasks[task] == old(tasks)[task] && old(consumers).Keys <= consumers.Keys
      ensures |workers| >= |old(workers)| && (actions == [] ==> Here() == old(Here()))
    {
      hide Registry.Step;
      TaskWaits(Here(), actions, task);
      for k := 0 to |actions|
        invariant Here() == Registry.Exec(old(Here()), actions[..k]) && history == old(history)
      {
        var s := Registry.Step(Registry.State(consumers, workers, handlers, tasks), actions[k]);
        consumers, workers, handlers, tasks := s.consumers, s.workers, s.handlers, s.tasks;
        Registry.ExecAppend(old(Here()), actions[..k], [actions[k]]);
        assert [actions[k]][1..] == [];
        assert Registry.Exec(Registry.Exec(old(Here()), actions[..k]), [actions[k]]) == Here();
        assert actions[..k] + [actions[k]] == actions[..k + 1];
      }
      assert actions[..|actions|] == actions;
      Registry.ExecAppend(Registry.EMPTY, history, actions);
      history := history + actions;
      Registry.WorkersOnlyGrow(old(Here()), actions);
      Registry.ConsumersAreWorkers(history);
    }

    /** Looks the key up; if it is new, starts its worker, waits for the connection while other
        calls go on, and registers the consumer. */
    method EnsureConsumer(key: string, others: seq<Registry.Action>)
      requires Valid() && LeavesTask(others, |tasks|)
      modifies this
      ensures Valid() && key in consumers && old(consumers).Keys <= consumers.Keys
      ensures history == old(history) + [Registry.Spawn(key), Registry.Proceed(|old(tasks)|)] +
        if key in old(consumers) then [] else others + [Registry.Proceed(|old(tasks)|)]
      ensures key in old(consumers) ==> consumers == old(consumers) && workers == old(workers)
      ensures key !in old(consumers) ==> consumers[key] == |old(workers)|
      ensures others == [] ==> consumers.Keys == old(consumers).Keys + {key} && |tasks| == |old(tasks)| + 1
    {
      hide Registry.Exec, LeavesTask;
      var task := |tasks|;
      ghost var before := Here();
      tasks := tasks + [Registry.Begin(key)];
      Record(Registry.Spawn(key), before);
      before := Here();
      if key in consumers {
        tasks := tasks[task := Registry.Ready(key)];
        Record(Registry.Proceed(task), before);
        return;
      }
      var worker := |workers|;
      workers, handlers := workers + [key], handlers + [{}];
      tasks := tasks[task := Registry.Connecting(key, worker)];
      Record(Registry.Proceed(task), before);
      Await(others, task);
      before := Here();
      consumers := consumers[key := worker];
      tasks := tasks[task := Registry.Ready(key)];
      Record(Registry.Proceed(task), before);
    }

    /** Start-up creates the consumers of all decorated keys one after another. With no call
        from elsewhere meanwhile its history is exactly the start-up whose outcome lasts. */
    method OnModuleInit(registeredKeys: seq<string>, others: seq<seq<Registry.Action>>)
      requires Valid() && |others| == |registeredKeys|
      requires forall i, j | 0 <= i < j < |registeredKeys| :: registeredKeys[i] != registeredKeys[j]
      requires forall k, task | 0 <= k < |others| :: LeavesTask(others[k], task)
      modifies this
      ensures Valid() && forall k | k in registeredKeys :: k in consumers
      ensures old(history) == [] && (forall k | 0 <= k < |others| :: others[k] == []) ==>
        history == Registry.StartUp(registeredKeys, 0)
    {
      ghost var alone := history == [] && forall k | 0 <= k < |others| :: others[k] == [];
      assert history == [] ==> Here() == Registry.EMPTY;
      hide Registry.Step, Registry.Exec;
      for i := 0 to |registeredKeys|
        invariant Valid() && forall k | k in registeredKeys[..i] :: k in consumers
        invariant alone ==> |tasks| == i && history == Registry.StartUp(registeredKeys[..i], 0)
        invariant alone ==> consumers.Keys == set k | k in registeredKeys[..i]
      {
        assert registeredKeys[i] !in registeredKeys[..i];
        EnsureConsumer(registeredKeys[i], others[i]);
        assert registeredKeys[..i + 1] == registeredKeys[..i] + [registeredKeys[i]];
        Registry.StartUpOneMore(registeredKeys[..i], registeredKeys[i]);
      }
      assert registeredKeys[..|registeredKeys|] == registeredKeys;
    }

    /** The consumer of a key, created if need be, with the handler of a job set. */
    method GetOrCreate(key: string, job: string, others: seq<Registry.Action>) returns (worker: nat)
      requires Valid() && LeavesTask(others, |tasks|)
      modifies this
      ensures Valid() && key in consumers && worker == consumers[key]
      ensures worker < |handlers| && job in handlers[worker]
      ensures key in old(consumers) ==> consumers == old(consumers) && workers == old(workers)
      ensures old(history) <= history && history[|history| - 1] == Registry.SetHandler(key, job)
    {
      EnsureConsumer(key, others);
      worker := consumers[key];
      ghost var before := Here();
      handlers := handlers[worker := handlers[worker] + {job}];
      Record(Registry.SetHandler(key, job), before);
    }
  }

  /** A registry that started up without interference keeps one worker per decorated key, the
      registered one, whatever calls followed. */
  lemma RegistryKeepsOneWorker(registry: WriteQueueRegistry, keys: seq<string>, later: seq<Registry.Action>,
      key: string)
    requires registry.Valid() && registry.history == Registry.StartUp(keys, 0) + later && key in keys
    ensures key in registry.consumers && Registry.WorkersOf(registry.workers, key) == 1
    ensures registry.workers[registry.consumers[key]] == key
  {
    Registry.OneWorkerAfterStartUp(keys, later, key);
  }
}
