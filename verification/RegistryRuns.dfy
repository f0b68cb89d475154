/**
 Creating consumers: `ensureConsumer` looks the key up and starts a worker at once, but
 registers the consumer only after a wait. Tasks for any keys interleave.
 */
module RegistryRuns {
  /** A call of `ensureConsumer`: not begun, waiting to connect with its new worker, or done. */
  datatype Task = Begin(key: string) | Connecting(key: string, worker: nat) | Ready(key: string)

  /** `workers` lists the key of every worker ever started, `handlers` the job keys each can
      run; `consumers` maps a key to the worker registered for it. */
  datatype State = State(
    consumers: map<string, nat>,
    workers: seq<string>,
    handlers: seq<set<string>>,
    tasks: seq<Task>)

  datatype Action =
    | Spawn(key: string)
    | Proceed(task: nat)
    | SetHandler(key: string, job: string)

  const EMPTY := State(map[], [], [], [])

  function Step(s: State, a: Action): State {
    match a
    case Spawn(key) => s.(tasks := s.tasks + [Begin(key)])
    case Proceed(i) =>
      if i >= |s.tasks| then s
      else
        (match s.tasks[i]
         case Begin(key) =>
           if key in s.consumers then s.(tasks := s.tasks[i := Ready(key)])
           else s.(workers := s.workers + [key], handlers := s.handlers + [{}],
                   tasks := s.tasks[i := Connecting(key, |s.workers|)])
         case Connecting(key, worker) =>
           s.(consumers := s.consumers[key := worker], tasks := s.tasks[i := Ready(key)])
         case Ready(_) => s)
    case SetHandler(key, job) =>
      if key in s.consumers && s.consumers[key] < |s.handlers|
      then s.(handlers := s.handlers[s.consumers[key] := s.handlers[s.consumers[key]] + {job}])
      else s
  }

  function Exec(s: State, actions: seq<Action>): State
    decreases |actions|
  {
    if actions == [] then s else Exec(Step(s, actions[0]), actions[1..])
  }

  /** Whether a job added under `key` finds its handler in a worker that may take it. */
  predicate CanRun(s: State, worker: nat, key: string, job: string) {
    worker < |s.workers| && |s.handlers| == |s.workers| && s.workers[worker] == key && job in s.handlers[worker]
  }

  predicate IsConnecting(s: State, key: string) {
    exists t | t in s.tasks :: t.Connecting? && t.key == key
  }

  /** The step starts a worker for `key` while another task is still connecting one. */
  predicate Overlaps(s: State, a: Action, key: string) {
    a.Proceed? && a.task < |s.tasks| && s.tasks[a.task] == Begin(key) && key !in s.consumers && IsConnecting(s, key)
  }

  predicate NeverOverlaps(s: State, actions: seq<Action>, key: string)
    decreases |actions|
  {
    actions == [] || (!Overlaps(s, actions[0], key) && NeverOverlaps(Step(s, actions[0]), actions[1..], key))
  }

  /** The workers started for a key. */
  function WorkersOf(workers: seq<string>, key: string): nat {
    if workers == [] then 0
    else WorkersOf(workers[..|workers| - 1], key) + (if workers[|workers| - 1] == key then 1 else 0)
  }

  lemma WorkersOfAppend(workers: seq<string>, started: string, key: string)
    ensures WorkersOf(workers + [started], key) == WorkersOf(workers, key) + (if started == key then 1 else 0)
  {
    assert (workers + [started])[..|workers|] == workers;
  }

  /** A key has its one worker once it is registered or being connected by one task. */
  ghost predicate KeyOk(s: State, key: string) {
    && (key in s.consumers ==> s.consumers[key] < |s.workers| && s.workers[s.consumers[key]] == key)
    && (key in s.consumers ==> !IsConnecting(s, key))
    && (forall t | t in s.tasks && t.Connecting? && t.key == key ::
          t.worker < |s.workers| && s.workers[t.worker] == key)
    && (forall i, j | 0 <= i < j < |s.tasks| && s.tasks[i].Connecting? && s.tasks[j].Connecting? ::
          s.tasks[i].key == key ==> s.tasks[j].key != key)
    && WorkersOf(s.workers, key) == if key in s.consumers || IsConnecting(s, key) then 1 else 0
  }

  /** Replacing a task that is not connecting leaves the connecting tasks of a key in place. */
  lemma ConnectingStays(tasks: seq<Task>, i: nat, t: Task, x: Task)
    requires i < |tasks| && !tasks[i].Connecting? && x.Connecting?
    ensures x in tasks ==> x in tasks[i := t]
    ensures x in tasks[i := t] ==> x in tasks || x == t
  {
    if x in tasks {
      var j :| 0 <= j < |tasks| && tasks[j] == x;
      assert tasks[i := t][j] == x;
    }
  }

  lemma BeginKeeps(s: State, i: nat, key: string)
    requires KeyOk(s, key) && i < |s.tasks| && s.tasks[i].Begin? && !Overlaps(s, Proceed(i), key)
    ensures KeyOk(Step(s, Proceed(i)), key)
  {
    var s' := Step(s, Proceed(i));
    var own := s.tasks[i].key;
    assert s'.tasks[i] in s'.tasks;
    WorkersOfAppend(s.workers, own, key);
    forall t: Task | t.Connecting?
      ensures t in s.tasks ==> t in s'.tasks
      ensures t in s'.tasks ==> t in s.tasks || t == s'.tasks[i]
    {
      ConnectingStays(s.tasks, i, s'.tasks[i], t);
    }
    assert IsConnecting(s', key) <==> IsConnecting(s, key) || (own == key && own !in s.consumers);
  }

  lemma ConnectKeeps(s: State, i: nat, key: string)
    requires KeyOk(s, key) && i < |s.tasks| && s.tasks[i].Connecting?
    ensures KeyOk(Step(s, Proceed(i)), key)
  {
    var s' := Step(s, Proceed(i));
    assert s.tasks[i] in s.tasks;
    forall t | t in s'.tasks ensures t == s'.tasks[i] || t in s.tasks {
      var j :| 0 <= j < |s'.tasks| && s'.tasks[j] == t;
      if j != i { assert s.tasks[j] == t; }
    }
    if s.tasks[i].key == key {
      assert IsConnecting(s, key);
      assert !IsConnecting(s', key);
    } else if IsConnecting(s, key) {
      var t :| t in s.tasks && t.Connecting? && t.key == key;
      var j :| 0 <= j < |s.tasks| && s.tasks[j] == t;
      assert s'.tasks[j] == t && t in s'.tasks;
    }
  }

  lemma StepKeeps(s: State, a: Action, key: string)
    requires KeyOk(s, key) && !Overlaps(s, a, key)
    ensures KeyOk(Step(s, a), key)
  {
    match a
    case Spawn(other) =>
      assert forall t | t in s.tasks + [Begin(other)] :: t in s.tasks || t == Begin(other);
      assert forall t | t in s.tasks :: t in s.tasks + [Begin(other)];
    case Proceed(i) =>
      if i < |s.tasks| {
        if s.tasks[i].Begin? { BeginKeeps(s, i, key); }
        if s.tasks[i].Connecting? { ConnectKeeps(s, i, key); }
      }
    case SetHandler(_, _) =>
  }

  /** While no two tasks connect the key at once, it has at most one worker ever, exactly one
      once it is registered, and the registered worker is that one. */
  lemma {:induction false} OneWorkerPerKey(s: State, actions: seq<Action>, key: string)
    requires KeyOk(s, key) && NeverOverlaps(s, actions, key)
    ensures KeyOk(Exec(s, actions), key)
    ensures WorkersOf(Exec(s, actions).workers, key) <= 1
    ensures key in Exec(s, actions).consumers ==> WorkersOf(Exec(s, actions).workers, key) == 1
    decreases |actions|
  {
    if actions != [] {
      StepKeeps(s, actions[0], key);
      OneWorkerPerKey(Step(s, actions[0]), actions[1..], key);
    }
  }

  /** The first overlap on a key does start a second worker for it. */
  lemma OverlapStartsASecondWorker(s: State, a: Action, key: string)
    requires Overlaps(s, a, key) && KeyOk(s, key)
    ensures WorkersOf(Step(s, a).workers, key) == 2
  {
    WorkersOfAppend(s.workers, key, key);
  }

  /** The workers of a key are never fewer. */
  lemma {:induction false} WorkersOfGrow(s: State, actions: seq<Action>, key: string)
    ensures WorkersOf(s.workers, key) <= WorkersOf(Exec(s, actions).workers, key)
    decreases |actions|
  {
    if actions != [] {
      if actions[0].Proceed? && actions[0].task < |s.tasks| && s.tasks[actions[0].task].Begin? {
        WorkersOfAppend(s.workers, s.tasks[actions[0].task].key, key);
      }
      WorkersOfGrow(Step(s, actions[0]), actions[1..], key);
    }
  }

  /** Over whole runs, whatever happens to other keys: a key has at most one worker exactly when
      no two tasks ever connected it at once. */
  lemma {:induction false} OneWorkerIffNeverOverlaps(s: State, actions: seq<Action>, key: string)
    requires KeyOk(s, key)
    ensures WorkersOf(Exec(s, actions).workers, key) <= 1 <==> NeverOverlaps(s, actions, key)
    decreases |actions|
  {
    hide KeyOk, Step, Overlaps;
    if NeverOverlaps(s, actions, key) {
      OneWorkerPerKey(s, actions, key);
    } else if Overlaps(s, actions[0], key) {
      OverlapStartsASecondWorker(s, actions[0], key);
      WorkersOfGrow(Step(s, actions[0]), actions[1..], key);
    } else {
      StepKeeps(s, actions[0], key);
      OneWorkerIffNeverOverlaps(Step(s, actions[0]), actions[1..], key);
    }
  }

  // ---------------------------------------------------------------- after start-up

  /** Every key of `keys` is registered, and no task is connecting one of them. */
  ghost predicate StartedUp(s: State, keys: set<string>) {
    forall k | k in keys :: k in s.consumers && !IsConnecting(s, k)
  }

  lemma StartedUpStep(s: State, a: Action, keys: set<string>, key: string)
    requires StartedUp(s, keys) && key in keys
    ensures key in Step(s, a).consumers && !IsConnecting(Step(s, a), key)
    ensures Step(s, a).consumers[key] == s.consumers[key]
    ensures WorkersOf(Step(s, a).workers, key) == WorkersOf(s.workers, key)
  {
    var s' := Step(s, a);
    if a.Proceed? && a.task < |s.tasks| {
      assert s.tasks[a.task] in s.tasks;
      if s.tasks[a.task].Begin? { WorkersOfAppend(s.workers, s.tasks[a.task].key, key); }
    }
  }

  /** Once start-up has registered every decorated key, no run ever starts another worker for
      one of them or replaces the registered one, however calls overlap. */
  lemma {:induction false} StartedUpForever(s: State, actions: seq<Action>, keys: set<string>, key: string)
    requires StartedUp(s, keys) && key in keys
    ensures var s' := Exec(s, actions);
      && key in s'.consumers && s'.consumers[key] == s.consumers[key]
      && WorkersOf(s'.workers, key) == WorkersOf(s.workers, key)
    decreases |actions|
  {
    if actions != [] {
      var s1 := Step(s, actions[0]);
      forall k | k in keys ensures k in s1.consumers && !IsConnecting(s1, k) {
        StartedUpStep(s, actions[0], keys, k);
      }
      StartedUpStep(s, actions[0], keys, key);
      StartedUpForever(s1, actions[1..], keys, key);
    }
  }

  // ---------------------------------------------------------------- start-up itself

  lemma {:induction false} ExecAppend(s: State, xs: seq<Action>, ys: seq<Action>)
    ensures Exec(s, xs + ys) == Exec(Exec(s, xs), ys)
    decreases |xs|
  {
    hide Step;
    if xs == [] {
      assert xs + ys == ys;
    } else {
      assert (xs + ys)[0] == xs[0] && (xs + ys)[1..] == xs[1..] + ys;
      ExecAppend(Step(s, xs[0]), xs[1..], ys);
    }
  }

  /** Start-up creates the consumers of its keys one after another, as task `task` and on: it
      looks each key up, connects, and registers before it goes on to the next. */
  function StartUp(keys: seq<string>, task: nat): seq<Action> {
    if keys == [] then []
    else [Spawn(keys[0]), Proceed(task), Proceed(task)] + StartUp(keys[1..], task + 1)
  }

  /** No task is under way, and every key has its one worker once registered, else none. */
  ghost predicate Quiet(s: State) {
    && |s.handlers| == |s.workers|
    && (forall t | t in s.tasks :: t.Ready?)
    && (forall k: string :: KeyOk(s, k))
  }

  lemma EmptyIsQuiet()
    ensures Quiet(EMPTY)
  {
  }

  lemma QuietOverlapsNothing(s: State, a: Action)
    requires forall t | t in s.tasks :: !t.Connecting?
    ensures forall k: string :: !Overlaps(s, a, k)
  {
  }

  /** One round of start-up: the key is registered, and all is quiet again. */
  lemma StartUpRound(s: State, key: string)
    requires Quiet(s)
    ensures var s' := Step(Step(Step(s, Spawn(key)), Proceed(|s.tasks|)), Proceed(|s.tasks|));
      && Quiet(s') && |s'.tasks| == |s.tasks| + 1 && s'.consumers.Keys == s.consumers.Keys + {key}
  {
    var i := |s.tasks|;
    var s1 := Step(s, Spawn(key));
    var s2 := Step(s1, Proceed(i));
    var s3 := Step(s2, Proceed(i));
    assert forall t | t in s1.tasks :: t in s.tasks || t == Begin(key);
    QuietOverlapsNothing(s, Spawn(key));
    QuietOverlapsNothing(s1, Proceed(i));
    assert forall k: string :: !Overlaps(s2, Proceed(i), k);
    forall k: string ensures KeyOk(s3, k) {
      assert KeyOk(s, k);
      StepKeeps(s, Spawn(key), k);
      StepKeeps(s1, Proceed(i), k);
      StepKeeps(s2, Proceed(i), k);
    }
    assert s3.tasks == s.tasks + [Ready(key)];
  }

  lemma {:induction false} StartUpRegisters(s: State, keys: seq<string>)
    requires Quiet(s)
    ensures var s' := Exec(s, StartUp(keys, |s.tasks|));
      Quiet(s') && s'.consumers.Keys == s.consumers.Keys + (set k | k in keys)
    decreases |keys|
  {
    hide Quiet, Step;
    if keys != [] {
      var i := |s.tasks|;
      var round, rest := [Spawn(keys[0]), Proceed(i), Proceed(i)], StartUp(keys[1..], i + 1);
      StartUpRound(s, keys[0]);
      ExecThree(s, Spawn(keys[0]), Proceed(i), Proceed(i), rest);
      StartUpRegisters(Step(Step(Step(s, Spawn(keys[0])), Proceed(i)), Proceed(i)), keys[1..]);
      assert keys == [keys[0]] + keys[1..];
    }
  }

  lemma ExecThree(s: State, a: Action, b: Action, c: Action, rest: seq<Action>)
    ensures Exec(s, [a, b, c] + rest) == Exec(Step(Step(Step(s, a), b), c), rest)
  {
    hide Step;
    var all := [a, b, c] + rest;
    assert all[1..] == [b, c] + rest && ([b, c] + rest)[1..] == [c] + rest && ([c] + rest)[1..] == rest;
    assert Exec(s, all) == Exec(Step(s, a), [b, c] + rest) == Exec(Step(Step(s, a), b), [c] + rest);
  }

  /** The state in which start-up has completed and any calls have followed. */
  function AfterStartUp(keys: seq<string>, later: seq<Action>): State {
    Exec(EMPTY, StartUp(keys, 0) + later)
  }

  lemma StartUpCompletes(keys: seq<string>)
    ensures var s := Exec(EMPTY, StartUp(keys, 0));
      Quiet(s) && StartedUp(s, (set k | k in keys))
  {
    EmptyIsQuiet();
    StartUpRegisters(EMPTY, keys);
  }

  lemma {:induction false} StartUpOneMore(keys: seq<string>, key: string)
    ensures StartUp(keys + [key], 0) == StartUp(keys, 0) + [Spawn(key), Proceed(|keys|), Proceed(|keys|)]
  {
    StartUpSnoc(keys, key, 0);
  }

  lemma {:induction false} StartUpSnoc(keys: seq<string>, key: string, task: nat)
    ensures StartUp(keys + [key], task) ==
      StartUp(keys, task) + [Spawn(key), Proceed(task + |keys|), Proceed(task + |keys|)]
    decreases |keys|
  {
    if keys == [] {
      assert [] + [key] == [key] && [key][1..] == [];
    } else {
      assert (keys + [key])[1..] == keys[1..] + [key];
      StartUpSnoc(keys[1..], key, task + 1);
    }
  }

  /** Every registered consumer's worker has been started. */
  ghost predicate WorkersStarted(s: State) {
    && |s.handlers| == |s.workers|
    && (forall k | k in s.consumers :: s.consumers[k] < |s.workers|)
    && (forall t | t in s.tasks && t.Connecting? :: t.worker < |s.workers|)
  }

  lemma {:induction false} ExecKeepsWorkers(s: State, actions: seq<Action>)
    requires WorkersStarted(s)
    ensures WorkersStarted(Exec(s, actions))
    decreases |actions|
  {
    if actions != [] {
      var s' := Step(s, actions[0]);
      forall t | t in s'.tasks && t.Connecting? ensures t.worker < |s'.workers| {
        var i :| 0 <= i < |s'.tasks| && s'.tasks[i] == t;
      }
      ExecKeepsWorkers(s', actions[1..]);
    }
  }

  lemma ConsumersAreWorkers(actions: seq<Action>)
    ensures WorkersStarted(Exec(EMPTY, actions))
  {
    ExecKeepsWorkers(EMPTY, actions);
  }

  /** Once start-up has completed, every decorated key has exactly one worker for ever, whatever
      calls, tasks and keys follow: the one registered for it. */
  lemma OneWorkerAfterStartUp(keys: seq<string>, later: seq<Action>, key: string)
    requires key in keys
    ensures var s := AfterStartUp(keys, later);
      && key in s.consumers && WorkersOf(s.workers, key) == 1
      && s.consumers[key] < |s.workers| && s.workers[s.consumers[key]] == key
  {
    hide Quiet, KeyOk;
    var s0 := Exec(EMPTY, StartUp(keys, 0));
    StartUpCompletes(keys);
    ExecAppend(EMPTY, StartUp(keys, 0), later);
    StartedUpForever(s0, later, (set k | k in keys), key);
    QuietKey(s0, key);
    WorkersOnlyGrow(s0, later);
  }

  lemma QuietKey(s: State, key: string)
    requires Quiet(s) && key in s.consumers
    ensures WorkersOf(s.workers, key) == 1 && s.consumers[key] < |s.workers| && s.workers[s.consumers[key]] == key
    ensures |s.handlers| == |s.workers|
  {
    assert KeyOk(s, key);
  }

  lemma {:induction false} WorkersOnlyGrow(s: State, actions: seq<Action>)
    ensures s.workers <= Exec(s, actions).workers
    ensures |s.handlers| == |s.workers| ==> |Exec(s, actions).handlers| == |Exec(s, actions).workers|
    ensures forall w, job | 0 <= w < |s.handlers| && job in s.handlers[w] ::
      w < |Exec(s, actions).handlers| && job in Exec(s, actions).handlers[w]
    decreases |actions|
  {
    if actions != [] {
      var s' := Step(s, actions[0]);
      assert s.workers <= s'.workers;
      assert forall w, job | 0 <= w < |s.handlers| && job in s.handlers[w] ::
        w < |s'.handlers| && job in s'.handlers[w];
      WorkersOnlyGrow(s', actions[1..]);
    }
  }

  lemma {:induction false} OneWorkerIsTheOnly(workers: seq<string>, key: string, a: nat, b: nat)
    requires WorkersOf(workers, key) <= 1 && a <= b < |workers| && workers[a] == key && workers[b] == key
    ensures a == b
  {
    var n := |workers| - 1;
    if a < n {
      HasWorker(workers[..n], key, a);
      if b < n {
        OneWorkerIsTheOnly(workers[..n], key, a, b);
      }
    }
  }

  lemma {:induction false} HasWorker(workers: seq<string>, key: string, a: nat)
    requires a < |workers| && workers[a] == key
    ensures WorkersOf(workers, key) >= 1
  {
    if a < |workers| - 1 {
      HasWorker(workers[..|workers| - 1], key, a);
    }
  }

  /** A call after start-up sets its handler before its job is added. Whatever happened since
      start-up and happens since then, every worker that may take the job can run it. */
  lemma EveryWorkerFindsTheHandler(keys: seq<string>, before: seq<Action>, key: string, job: string,
      later: seq<Action>, worker: nat)
    requires key in keys
    requires var s := AfterStartUp(keys, before + [SetHandler(key, job)] + later);
      worker < |s.workers| && s.workers[worker] == key
    ensures CanRun(AfterStartUp(keys, before + [SetHandler(key, job)] + later), worker, key, job)
  {
    hide KeyOk, Quiet;
    var set0 := before + [SetHandler(key, job)];
    var s1 := AfterStartUp(keys, before);
    var s2 := AfterStartUp(keys, set0);
    var s3 := AfterStartUp(keys, set0 + later);
    OneWorkerAfterStartUp(keys, before, key);
    OneWorkerAfterStartUp(keys, set0 + later, key);
    StartUpCompletes(keys);
    ExecAppend(EMPTY, StartUp(keys, 0), before);
    QuietKey(Exec(EMPTY, StartUp(keys, 0)), key);
    WorkersOnlyGrow(Exec(EMPTY, StartUp(keys, 0)), before);
    var w := s1.consumers[key];
    HandlerIsSet(s1, key, job);
    assert StartUp(keys, 0) + set0 == StartUp(keys, 0) + before + [SetHandler(key, job)];
    ExecAppend(EMPTY, StartUp(keys, 0) + before, [SetHandler(key, job)]);
    assert StartUp(keys, 0) + (set0 + later) == StartUp(keys, 0) + set0 + later;
    ExecAppend(EMPTY, StartUp(keys, 0) + set0, later);
    WorkersOnlyGrow(s2, later);
    OneWorkerIsTheOnly(s3.workers, key, if w <= worker then w else worker, if w <= worker then worker else w);
  }

  lemma HandlerIsSet(s: State, key: string, job: string)
    requires key in s.consumers && s.consumers[key] < |s.handlers|
    ensures var s' := Exec(s, [SetHandler(key, job)]);
      && s'.workers == s.workers && |s'.handlers| == |s.handlers| && job in s'.handlers[s.consumers[key]]
  {
    var a := SetHandler(key, job);
    assert [a][1..] == [];
    assert Exec(s, [a]) == Exec(Step(s, a), []) == Step(s, a);
  }

  // ---------------------------------------------------------------- a call before start-up ends

  function EarlyCall(key: string, job: string): seq<Action> {
    [Spawn(key), Proceed(0), Spawn(key), Proceed(1), Proceed(0), Proceed(1), SetHandler(key, job)]
  }

  lemma BothConnect(key: string, job: string)
    ensures Exec(EMPTY, EarlyCall(key, job)) ==
      Exec(State(map[], [key, key], [{}, {}], [Connecting(key, 0), Connecting(key, 1)]), EarlyCall(key, job)[4..])
  {
    var a := EarlyCall(key, job);
    var s1 := State(map[], [], [], [Begin(key)]);
    var s2 := State(map[], [key], [{}], [Connecting(key, 0)]);
    var s3 := State(map[], [key], [{}], [Connecting(key, 0), Begin(key)]);
    var s4 := State(map[], [key, key], [{}, {}], [Connecting(key, 0), Connecting(key, 1)]);
    assert Step(EMPTY, a[0]) == s1 && Step(s1, a[1]) == s2 && Step(s2, a[2]) == s3 && Step(s3, a[3]) == s4;
    hide Step, Exec;
    assert a[0..] == a;
    ExecTail(EMPTY, a, 0);
    ExecTail(s1, a, 1);
    ExecTail(s2, a, 2);
    ExecTail(s3, a, 3);
  }

  /** A call that arrives while start-up is still connecting its key starts a second worker,
      and the first, whose handlers stay empty, cannot run the job. */
  lemma EarlyCallCanLoseItsHandler(key: string, job: string)
    ensures var s := Exec(EMPTY, EarlyCall(key, job));
      && s.workers == [key, key] && !CanRun(s, 0, key, job) && CanRun(s, 1, key, job)
  {
    BothConnect(key, job);
    var a := EarlyCall(key, job);
    var s4 := State(map[], [key, key], [{}, {}], [Connecting(key, 0), Connecting(key, 1)]);
    var s5 := State(map[key := 0], [key, key], [{}, {}], [Ready(key), Connecting(key, 1)]);
    var s6 := State(map[key := 1], [key, key], [{}, {}], [Ready(key), Ready(key)]);
    var s7 := State(map[key := 1], [key, key], [{}, {job}], [Ready(key), Ready(key)]);
    assert {} + {job} == {job};
    assert Step(s4, a[4]) == s5 && Step(s5, a[5]) == s6 && Step(s6, a[6]) == s7;
    assert Exec(s7, []) == s7;
    hide Step, Exec;
    assert a[7..] == [];
    ExecTail(s4, a, 4);
    ExecTail(s5, a, 5);
    ExecTail(s6, a, 6);
  }

  lemma ExecTail(s: State, actions: seq<Action>, k: nat)
    requires k < |actions|
    ensures Exec(s, actions[k..]) == Exec(Step(s, actions[k]), actions[k + 1..])
  {
    assert actions[k..][0] == actions[k] && actions[k..][1..] == actions[k + 1..];
  }
}
