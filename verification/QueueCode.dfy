/**
 Service methods as the write queue sees them: trees of statements on a shared store and of
 nested calls to other decorated methods, with their meaning and a step-by-step execution.
 */
module QueueCode {
  import opened Optional

  datatype Json =
    | JNull
    | JBool(b: bool)
    | JStr(s: string)
    | JObj(fields: seq<(string, Json)>)

  /** The values a method has at hand: its argument first, then each awaited result. */
  type Env = seq<Json>

  datatype Exn = Http(status: int, response: Json) | Plain(message: string)

  datatype Outcome = Value(v: Json) | Raised(e: Exn)

  /** What one statement does to the store, at once: it answers, or it is refused. */
  datatype Answer<S> = Answered(store: S, v: Json) | Refused(e: Exn)

  /** `Call` awaits another decorated method, whose job key is `key`; `onError` is the catch
      block around the call, if there is one. */
  datatype Code<!S(!new)> =
    | Return(v: Env -> Json)
    | Throw(e: Env -> Exn)
    | Branch(test: Env -> bool, yes: Code<S>, no: Code<S>)
    | Statement(run: (S, Env) -> Answer<S>, next: Code<S>)
    | Call(key: string, arg: Env -> Json, callee: Code<S>, next: Code<S>, onError: Option<Code<S>>)

  /** The exception as a catch block sees it. */
  function Caught(e: Exn): Json {
    match e
    case Http(status, response) => JObj([("response", response)])
    case Plain(message) => JObj([("message", JStr(message))])
  }

  /** Direct execution of a method body, nested calls included, with nothing in between. */
  ghost function Run<S(!new)>(code: Code<S>, store: S, env: Env): (S, Outcome) {
    match code
    case Return(v) => (store, Value(v(env)))
    case Throw(e) => (store, Raised(e(env)))
    case Branch(test, yes, no) => if test(env) then Run(yes, store, env) else Run(no, store, env)
    case Statement(run, next) =>
      (match run(store, env)
       case Answered(store', v) => Run(next, store', env + [v])
       case Refused(e) => (store, Raised(e)))
    case Call(key, arg, callee, next, onError) =>
      var (store', outcome) := Run(callee, store, [arg(env)]);
      match outcome
      case Value(v) => Run(next, store', env + [v])
      case Raised(e) =>
        match onError
        case None => (store', outcome)
        case Some(handler) => Run(handler, store', env + [Caught(e)])
  }

  // ---------------------------------------------------------------- step by step

  /** A caller waiting for a nested call. */
  datatype Frame<!S(!new)> = Frame(env: Env, next: Code<S>, onError: Option<Code<S>>)

  /** A method in progress. `inWorker` is the processing context, which every call it makes
      inherits. `Dispatching` is about to add a job for a nested call and `Waiting` awaits the
      result of job `id`; both keep the callers to come back to. */
  datatype Task<!S(!new)> =
    | Running(inWorker: bool, code: Code<S>, env: Env, stack: seq<Frame<S>>)
    | Dispatching(inWorker: bool, key: string, callee: Code<S>, arg: Json, stack: seq<Frame<S>>)
    | Waiting(inWorker: bool, id: nat, stack: seq<Frame<S>>)
    | Finished(outcome: Outcome)

  datatype Route = Inline | Dispatch

  /** The wrapper around a decorated method: inside a worker, or without a registry, the
      original runs in place; otherwise the call becomes a job. */
  function Wrap(inWorker: bool, registryReady: bool): Route {
    if inWorker || !registryReady then Inline else Dispatch
  }

  /** The callers of a raised exception, up to the first catch block. */
  function Unwind<S(!new)>(inWorker: bool, e: Exn, stack: seq<Frame<S>>): Task<S> {
    if stack == [] then Finished(Raised(e))
    else
      var top := stack[|stack| - 1];
      match top.onError
      case None => Unwind(inWorker, e, stack[..|stack| - 1])
      case Some(handler) => Running(inWorker, handler, top.env + [Caught(e)], stack[..|stack| - 1])
  }

  function Deliver<S(!new)>(inWorker: bool, v: Json, stack: seq<Frame<S>>): Task<S> {
    if stack == [] then Finished(Value(v))
    else
      var top := stack[|stack| - 1];
      Running(inWorker, top.next, top.env + [v], stack[..|stack| - 1])
  }

  /** One step of a method in progress. A nested decorated call runs in place or becomes a
      job, as the wrapper decides from the processing context and the registry. */
  function TaskStep<S(!new)>(registryReady: bool, task: Task<S>, store: S): (Task<S>, S) {
    match task
    case Running(inWorker, code, env, stack) =>
      (match code
       case Return(v) => (Deliver(inWorker, v(env), stack), store)
       case Throw(e) => (Unwind(inWorker, e(env), stack), store)
       case Branch(test, yes, no) => (Running(inWorker, if test(env) then yes else no, env, stack), store)
       case Statement(run, next) =>
         (match run(store, env)
          case Answered(store', v) => (Running(inWorker, next, env + [v], stack), store')
          case Refused(e) => (Unwind(inWorker, e, stack), store))
       case Call(key, arg, callee, next, onError) =>
         var callers := stack + [Frame(env, next, onError)];
         match Wrap(inWorker, registryReady)
         case Inline => (Running(inWorker, callee, [arg(env)], callers), store)
         case Dispatch => (Dispatching(inWorker, key, callee, arg(env), callers), store))
    case _ => (task, store)
  }

  /** A method that is done, or runs in the processing context or without a registry. */
  predicate RunsInPlace<S(!new)>(registryReady: bool, task: Task<S>) {
    task.Finished? || (task.Running? && (task.inWorker || !registryReady))
  }

  /** What the waiting callers make of an outcome. */
  ghost function Resume<S(!new)>(stack: seq<Frame<S>>, store: S, outcome: Outcome): (S, Outcome)
    decreases |stack|
  {
    if stack == [] then (store, outcome)
    else
      var top, rest := stack[|stack| - 1], stack[..|stack| - 1];
      match outcome
      case Value(v) => var (s, o) := Run(top.next, store, top.env + [v]); Resume(rest, s, o)
      case Raised(e) =>
        match top.onError
        case None => Resume(rest, store, outcome)
        case Some(handler) => var (s, o) := Run(handler, store, top.env + [Caught(e)]); Resume(rest, s, o)
  }

  /** What a method in progress will come to if nothing else touches the store. */
  ghost function Completion<S(!new)>(task: Task<S>, store: S): (S, Outcome)
    requires task.Running? || task.Finished?
  {
    match task
    case Finished(outcome) => (store, outcome)
    case Running(_, code, env, stack) => var (s, o) := Run(code, store, env); Resume(stack, s, o)
  }

  lemma {:induction false} UnwindCompletes<S(!new)>(inWorker: bool, e: Exn, stack: seq<Frame<S>>, store: S)
    ensures var task := Unwind(inWorker, e, stack);
      && (task.Finished? || (task.Running? && task.inWorker == inWorker))
      && Completion(task, store) == Resume(stack, store, Raised(e))
    decreases |stack|
  {
    if stack != [] && stack[|stack| - 1].onError.None? {
      UnwindCompletes(inWorker, e, stack[..|stack| - 1], store);
    }
  }

  /** A step inside a worker, or without a registry, does not change what the method comes to,
      and stays there: stepwise execution with inlined nested calls is direct execution. */
  lemma StepKeepsCompletion<S(!new)>(registryReady: bool, task: Task<S>, store: S)
    requires RunsInPlace(registryReady, task)
    ensures var (task', store') := TaskStep(registryReady, task, store);
      RunsInPlace(registryReady, task') && Completion(task', store') == Completion(task, store)
  {
    match task
    case Finished(_) =>
    case Running(inWorker, code, env, stack) =>
      match code
      case Throw(e) => UnwindCompletes(inWorker, e(env), stack, store);
      case Statement(run, next) =>
        if run(store, env).Refused? { UnwindCompletes(inWorker, run(store, env).e, stack, store); }
      case Call(key, arg, callee, next, onError) =>
        var frame := Frame(env, next, onError);
        assert (stack + [frame])[..|stack|] == stack;
      case _ =>
  }

  // ---------------------------------------------------------------- termination

  function Size<S(!new)>(code: Code<S>): nat {
    match code
    case Return(_) => 1
    case Throw(_) => 1
    case Branch(_, yes, no) => 1 + Size(yes) + Size(no)
    case Statement(_, next) => 1 + Size(next)
    case Call(_, _, callee, next, onError) =>
      1 + Size(callee) + Size(next) + (match onError case None => 0 case Some(handler) => Size(handler))
  }

  function FrameSize<S(!new)>(f: Frame<S>): nat {
    Size(f.next) + (match f.onError case None => 0 case Some(handler) => Size(handler))
  }

  function StackSize<S(!new)>(stack: seq<Frame<S>>): nat {
    if stack == [] then 0 else StackSize(stack[..|stack| - 1]) + FrameSize(stack[|stack| - 1])
  }

  function Remaining<S(!new)>(task: Task<S>): nat {
    match task
    case Finished(_) => 0
    case Running(_, code, _, stack) => Size(code) + StackSize(stack)
    case Dispatching(_, _, _, _, stack) => StackSize(stack)
    case Waiting(_, _, stack) => StackSize(stack)
  }

  lemma {:induction false} UnwindShrinks<S(!new)>(inWorker: bool, e: Exn, stack: seq<Frame<S>>)
    ensures Remaining(Unwind(inWorker, e, stack)) <= StackSize(stack)
    decreases |stack|
  {
    if stack != [] && stack[|stack| - 1].onError.None? {
      UnwindShrinks(inWorker, e, stack[..|stack| - 1]);
    }
  }

  /** Where nested calls run in place every step brings the method closer to its end: it never
      waits. */
  lemma WorkerStepShrinks<S(!new)>(registryReady: bool, task: Task<S>, store: S)
    requires task.Running? && RunsInPlace(registryReady, task)
    ensures Remaining(TaskStep(registryReady, task, store).0) < Remaining(task)
  {
    var Running(inWorker, code, env, stack) := task;
    match code
    case Throw(e) => UnwindShrinks(inWorker, e(env), stack);
    case Statement(run, next) =>
      if run(store, env).Refused? { UnwindShrinks(inWorker, run(store, env).e, stack); }
    case Call(key, arg, callee, next, onError) =>
      assert (stack + [Frame(env, next, onError)])[..|stack|] == stack;
    case _ =>
  }
}
