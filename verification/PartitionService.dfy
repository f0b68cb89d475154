/**
 The partition service as it runs: it builds its statements in loops, sends them to the
 database, and keeps its own timer. While a statement is awaited, the clock, logging requests
 and other instances go on; every method is shown to be a run of the maintenance machine and
 of the timer machine, so what holds of every run holds of the service.
 */
module PartitionService {
  import opened Optional
  import opened Calendar
  import opened PartitionNames
  import opened PartitionTable
  import opened PartitionPlan
  import opened PartitionInvariant
  import opened PartitionRuns
  import opened PartitionCoverage
  import opened PartitionLock
  import Timers = PartitionTimer

  /** What one wait for the database meets: what the others do first, then its own fault. */
  datatype Wait = Wait(others: seq<Action>, fault: Fault)

  /** The actions of instance `i` among all. */
  function Mine(actions: seq<Action>, i: nat): seq<Action> {
    if actions == [] then []
    else
      var a := actions[|actions| - 1];
      Mine(actions[..|actions| - 1], i) + (if a.Tick? || a.LogRow? || a.inst != i then [] else [a])
  }

  lemma {:induction false} MineOfOthers(actions: seq<Action>, others: seq<Action>, i: nat)
    requires OthersOnly(others, i)
    ensures Mine(actions + others, i) == Mine(actions, i)
    decreases |others|
  {
    if others == [] {
      assert actions + others == actions;
    } else {
      var n := |others| - 1;
      assert others[n] in others;
      assert (actions + others)[..|actions| + n] == actions + others[..n];
      assert forall a | a in others[..n] :: a in others;
      MineOfOthers(actions, others[..n], i);
    }
  }

  lemma MineAppend(actions: seq<Action>, a: Action, i: nat)
    requires !a.Tick? && !a.LogRow? && a.inst == i
    ensures Mine(actions + [a], i) == Mine(actions, i) + [a]
  {
    assert (actions + [a])[..|actions|] == actions;
  }

  lemma {:induction false} OthersLeave(s: State, actions: seq<Action>, i: nat)
    requires i < |s.insts| && OthersOnly(actions, i)
    ensures |Exec(s, actions).insts| == |s.insts| && Exec(s, actions).insts[i] == s.insts[i]
    decreases |actions|
  {
    hide EnsureOutcome, DropOutcome, ListNames, Millis;
    if actions != [] {
      assert actions[0] in actions && forall a | a in actions[1..] :: a in actions;
      var s' := Step(s, actions[0]);
      assert |s'.insts| == |s.insts| && s'.insts[i] == s.insts[i];
      OthersLeave(s', actions[1..], i);
    }
  }

  /** The database of the log table, its lock, the clock, and how far each instance is. */
  class ApiLogDatabase {
    ghost const start: State
    var table: Table
    var clock: Clock
    var lock: Option<Holder>
    var insts: seq<Phase>
    ghost var history: seq<Action>       // everything that happened so far

    constructor (table: Table, clock: Clock, instances: nat)
      ensures Valid() && history == [] && Here() == State(table, clock, None, seq(instances, _ => Outside))
    {
      this.table, this.clock, lock, insts := table, clock, None, seq(instances, _ => Outside);
      start := State(table, clock, None, seq(instances, _ => Outside));
      history := [];
    }

    ghost function Here(): State
      reads this
    {
      State(table, clock, lock, insts)
    }

    /** The state is the outcome of the recorded history. */
    ghost predicate Valid()
      reads this
    {
      Here() == Exec(start, history)
    }

    ghost method Record(a: Action, before: State)
      requires before == Exec(start, history) && Here() == Step(before, a)
      modifies this`history
      ensures Valid() && history == old(history) + [a]
    {
      hide Step;
      ExecAppend(start, history, [a]);
      assert [a][1..] == [];
      history := history + [a];
    }

    /** What the clock, logging requests and other instances do while instance `me` waits. */
    method Await(me: nat, others: seq<Action>)
      requires Valid() && me < |insts| && OthersOnly(others, me)
      modifies this
      ensures Valid() && history == old(history) + others && Here() == Exec(old(Here()), others)
      ensures |insts| == |old(insts)| && insts[me] == old(insts)[me]
      ensures Mine(history, me) == Mine(old(history), me)
    {
      hide Step;
      for k := 0 to |others|
        invariant Valid() && history == old(history) + others[..k]
        invariant Here() == Exec(old(Here()), others[..k])
      {
        ghost var before := Here();
        var s := Step(State(table, clock, lock, insts), others[k]);
        table, clock, lock, insts := s.table, s.clock, s.lock, s.insts;
        Record(others[k], before);
        ExecAppend(old(Here()), others[..k], [others[k]]);
        assert [others[k]][1..] == [];
        assert others[..k] + [others[k]] == others[..k + 1];
      }
      assert others[..|others|] == others;
      OthersLeave(old(Here()), others, me);
      MineOfOthers(old(history), others, me);
    }

    /** GET_LOCK without waiting, on one connection of the instance's pool. */
    method GetLock(me: nat, conn: nat) returns (acquired: bool)
      requires Valid() && me < |insts| && insts[me] == Outside
      modifies this
      ensures Valid() && history == old(history) + [Acquire(me, conn)]
      ensures insts == if acquired then old(insts)[me := Locked] else old(insts)
      ensures acquired <==> old(lock).None? || (old(lock).value.inst == me && old(lock).value.conn == conn)
      ensures lock == if !acquired then old(lock)
                      else Some(Holder(me, conn, if old(lock).None? then 1 else old(lock).value.depth + 1))
    {
      ghost var before := Here();
      if lock.None? {
        lock := Some(Holder(me, conn, 1));
        acquired := true;
      } else {
        acquired := lock.value.inst == me && lock.value.conn == conn;
        if acquired {
          lock := Some(lock.value.(depth := lock.value.depth + 1));
        }
      }
      if acquired {
        insts := insts[me := Locked];
      }
      Record(Acquire(me, conn), before);
    }

    /** RELEASE_LOCK, on some connection of the instance's pool; the instance leaves anyway. */
    method ReleaseLock(me: nat, conn: nat)
      requires Valid() && me < |insts| && insts[me].Leaving?
      modifies this
      ensures Valid() && history == old(history) + [Release(me, conn)]
      ensures insts == old(insts)[me := Outside]
      ensures lock == if old(lock).None? || old(lock).value.inst != me || old(lock).value.conn != conn then old(lock)
                      else if old(lock).value.depth <= 1 then None
                      else Some(Holder(me, conn, old(lock).value.depth - 1))
    {
      ghost var before := Here();
      if lock.Some? && lock.value.inst == me && lock.value.conn == conn {
        lock := if lock.value.depth <= 1 then None else Some(lock.value.(depth := lock.value.depth - 1));
      }
      insts := insts[me := Outside];
      Record(Release(me, conn), before);
    }

    /** A statement takes effect, is refused, or meets a fault. */
    method Execute(statement: DdlResult, fault: Fault) returns (errno: Option<int>)
      modifies this`table
      ensures (table, errno) == Executed(old(table), statement, fault)
    {
      if fault.NotExecuted? {
        return Some(fault.errno);
      }
      match statement
      case Altered(t) =>
        table := t;
        errno := if fault.ReplyLost? then Some(fault.errno) else None;
      case Refused(code) => errno := Some(code);
    }

    /** The instance goes on as `next`, by a step that changes nothing else. */
    method Progress(me: nat, next: Phase, ghost a: Action)
      requires Valid() && me < |insts| && Step(Here(), a) == Here().(insts := insts[me := next])
      requires !a.Tick? && !a.LogRow? && a.inst == me
      modifies this`insts, this`history
      ensures Valid() && history == old(history) + [a] && insts == old(insts)[me := next]
      ensures Mine(history, me) == Mine(old(history), me) + [a]
    {
      hide Step;
      ghost var before := Here();
      insts := insts[me := next];
      Record(a, before);
      MineAppend(old(history), a, me);
    }

    /** The partition names, for the first or the second listing of a run. */
    method ExistingPartitions(me: nat) returns (names: seq<string>)
      requires Valid() && me < |insts| && (insts[me].Locked? || insts[me].Dropping?)
      modifies this`insts, this`history
      ensures Valid() && history == old(history) + [ListPartitions(me)]
      ensures Mine(history, me) == Mine(old(history), me) + [ListPartitions(me)]
      ensures var at := old(insts)[me];
        insts == old(insts)[me := if at.Locked? then Listed(names) else ListedAgain(names, at.now)]
    {
      hide Exec, Mine, ListNames, EnsureOutcome, DropOutcome;
      names := ListNames(table);
      Progress(me, if insts[me].Locked? then Listed(names) else ListedAgain(names, insts[me].now), ListPartitions(me));
    }

    /** A listing that fails ends the run. */
    method ListingFails(me: nat)
      requires Valid() && me < |insts| && (insts[me].Locked? || insts[me].Dropping?)
      modifies this`insts, this`history
      ensures Valid() && history == old(history) + [Abort(me)] && insts == old(insts)[me := Leaving(true)]
      ensures Mine(history, me) == Mine(old(history), me) + [Abort(me)]
    {
      hide Exec, Mine, ListNames, EnsureOutcome, DropOutcome;
      Progress(me, Leaving(true), Abort(me));
    }

    /** `new Date()`, for the first or the second time in a run. */
    method Now(me: nat) returns (now: Clock)
      requires Valid() && me < |insts| && (insts[me].Listed? || insts[me].Ensured?)
      modifies this`insts, this`history
      ensures Valid() && history == old(history) + [ReadClock(me)]
      ensures Mine(history, me) == Mine(old(history), me) + [ReadClock(me)]
      ensures var at := old(insts)[me];
        now == clock && insts == old(insts)[me := if at.Listed? then Adding(at.names, now) else Dropping(now)]
    {
      hide Exec, Mine, ListNames, EnsureOutcome, DropOutcome;
      now := clock;
      Progress(me, if insts[me].Listed? then Adding(insts[me].names, now) else Dropping(now), ReadClock(me));
    }
  }

  /** The timers waiting in the event loop. */
  class EventLoop {
    var pending: set<Timers.Timer>
    var nextId: nat

    constructor ()
      ensures pending == {} && nextId == 0
    {
      pending, nextId := {}, 0;
    }

    method SetTimeout(now: int, delay: int) returns (t: Timers.Timer)
      modifies this
      ensures t == Timers.Timer(old(nextId), now + Timers.EffectiveDelay(delay))
      ensures pending == old(pending) + {t} && nextId == old(nextId) + 1
    {
      var effective := if delay > Timers.MAX_DELAY || delay < 1 then 1 else delay;
      t := Timers.Timer(nextId, now + effective);
      pending, nextId := pending + {t}, nextId + 1;
    }

    method ClearTimeout(t: Timers.Timer)
      modifies this`pending
      ensures pending == old(pending) - {t}
    {
      pending := pending - {t};
    }
  }

  /** Step `at` of a history is this statement, made by instance `i` when it was due. */
  ghost predicate Issued(start: State, history: seq<Action>, i: nat, at: nat, a: Action) {
    && at < |history| && history[at] == a
    && var s := Exec(start, history[..at]);
       i < |s.insts| && (a.Ensure? ==> s.insts[i].Adding?) && (a.DropExpired? ==> s.insts[i].ListedAgain?)
  }

  /** Step `at` of a history left instance `i` in this phase. */
  ghost predicate LedTo(start: State, history: seq<Action>, i: nat, at: nat, phase: Phase) {
    && at < |history|
    && var s := Exec(start, history[..at + 1]);
       i < |s.insts| && s.insts[i] == phase
  }

  /** What is in a history stays in every longer one. */
  lemma HistoryStays(start: State, history: seq<Action>, longer: seq<Action>, i: nat, at: nat, a: Action, phase: Phase)
    requires history <= longer
    ensures Issued(start, history, i, at, a) ==> Issued(start, longer, i, at, a)
    ensures LedTo(start, history, i, at, phase) ==> LedTo(start, longer, i, at, phase)
  {
    hide Exec;
    if at < |history| {
      assert longer[..at] == history[..at] && longer[..at + 1] == history[..at + 1];
    }
  }

  /** How a maintenance run of one instance ended. */
  datatype Ending = LockQueryFailed | LockTaken | ListingFailed | AddingFailed | SecondListingFailed | Completed

  /** What it did while it held the lock: nothing is dropped after a failure to add. */
  function LockedSteps(e: Ending, i: nat, adding: Fault, dropping: Fault): seq<Action> {
    match e
    case ListingFailed => [Abort(i)]
    case AddingFailed => [ListPartitions(i), ReadClock(i), Ensure(i, adding)]
    case SecondListingFailed => [ListPartitions(i), ReadClock(i), Ensure(i, adding), ReadClock(i), Abort(i)]
    case Completed =>
      [ListPartitions(i), ReadClock(i), Ensure(i, adding), ReadClock(i), ListPartitions(i), DropExpired(i, dropping)]
    case _ => []
  }

  /** All it did: the lock is released on every path on which it was taken. */
  function OwnSteps(e: Ending, i: nat, acquireOn: nat, releaseOn: nat, adding: Fault, dropping: Fault): seq<Action> {
    match e
    case LockQueryFailed => []
    case LockTaken => [Acquire(i, acquireOn)]
    case _ => [Acquire(i, acquireOn)] + LockedSteps(e, i, adding, dropping) + [Release(i, releaseOn)]
  }

  class ApiLogPartitionService {
    const me: nat
    const db: ApiLogDatabase
    const loop: EventLoop
    var timer: Option<Timers.Timer>
    var destroyed: bool
    ghost var running: nat
    ghost var starts: nat

    constructor (me: nat, db: ApiLogDatabase, loop: EventLoop)
      requires loop.pending == {} && loop.nextId == 0
      ensures this.me == me && this.db == db && this.loop == loop
      ensures Timing() == Timers.FRESH
    {
      this.me, this.db, this.loop := me, db, loop;
      timer, destroyed := None, false;
      running, starts := 0, 0;
    }

    ghost function Timing(): Timers.State
      reads this, loop
    {
      Timers.State(loop.pending, loop.nextId, timer, destroyed, running, starts)
    }

    /** Its database is in a recorded state and knows how far this instance is. */
    ghost predicate Ready(phase: Phase)
      reads db
    {
      db.Valid() && me < |db.insts| && db.insts[me] == phase
    }

    /** Step `at` of the history is this statement, made by this instance when it was due. */
    ghost predicate IssuedAt(at: nat, a: Action)
      reads db
    {
      Issued(db.start, db.history, me, at, a)
    }

    /** The clauses of the current month to `AHEAD` months on. */
    method CollectWindow(now: Clock) returns (clauses: seq<Clause>)
      ensures clauses == WindowClauses(now.month, [])
    {
      hide MissingMonths, MonthClause;
      clauses := [];
      ghost var months: seq<nat> := [];
      var i := 0;
      while i <= AHEAD
        invariant 0 <= i <= AHEAD + 1
        invariant months + MissingMonths(now.month, [], now.month + i) == MissingMonths(now.month, [], now.month)
        invariant clauses == MonthClauses(months)
        decreases AHEAD + 1 - i
      {
        MissingMonthsUnfold(now.month, [], now.month + i, months);
        clauses := clauses + [MonthClause(now.month + i)];
        months := months + [now.month + i];
        i := i + 1;
      }
      MissingMonthsEnd(now.month, []);
      assert months == MissingMonths(now.month, [], now.month);
    }

    /** The first partitioning: the current month to `AHEAD` months on. */
    method InitialPartitioning(now: Clock, w: Wait) returns (errno: Option<int>)
      requires Ready(Adding([], now)) && OthersOnly(w.others, me)
      modifies db
      ensures Ready(if errno == None then Ensured else Leaving(true))
      ensures db.history == old(db.history) + w.others + [Ensure(me, w.fault)]
      ensures Mine(db.history, me) == Mine(old(db.history), me) + [Ensure(me, w.fault)]
      ensures IssuedAt(|db.history| - 1, Ensure(me, w.fault))
    {
      hide PartitionBy, MissingMonths, MonthClause, Exec, Executed;
      var clauses := CollectWindow(now);
      db.Await(me, w.others);
      ghost var before := db.Here();
      errno := db.Execute(PartitionBy(db.table, clauses), w.fault);
      db.insts := db.insts[me := if errno == None then Ensured else Leaving(true)];
      db.Record(Ensure(me, w.fault), before);
      MineAppend(old(db.history) + w.others, Ensure(me, w.fault), me);
      assert db.history[..|db.history| - 1] == old(db.history) + w.others;
    }

    /** The clauses of the window's months that have no partition of their name yet. */
    method CollectMissing(existing: seq<string>, now: Clock) returns (toAdd: seq<Clause>)
      ensures toAdd == WindowClauses(now.month, existing)
    {
      hide MissingMonths, MonthClause, PartitionName;
      toAdd := [];
      ghost var months: seq<nat> := [];
      var i := 0;
      while i <= AHEAD
        invariant 0 <= i <= AHEAD + 1
        invariant months + MissingMonths(now.month, existing, now.month + i)
               == MissingMonths(now.month, existing, now.month)
        invariant toAdd == MonthClauses(months)
        decreases AHEAD + 1 - i
      {
        MissingMonthsUnfold(now.month, existing, now.month + i, months);
        if PartitionName(now.month + i) !in existing {
          toAdd := toAdd + [MonthClause(now.month + i)];
          months := months + [now.month + i];
        }
        i := i + 1;
      }
      MissingMonthsEnd(now.month, existing);
      assert months == MissingMonths(now.month, existing, now.month);
    }

    /** Adds the months of the window that have no partition of their name yet. */
    method EnsureFuturePartitions(existing: seq<string>, now: Clock, w: Wait) returns (ok: bool)
      requires Ready(Adding(existing, now)) && existing != [] && OthersOnly(w.others, me)
      modifies db
      ensures Ready(if ok then Ensured else Leaving(true))
      ensures var others := if IssuesEnsure(existing, now.month) then w.others else [];
        db.history == old(db.history) + others + [Ensure(me, w.fault)]
      ensures Mine(db.history, me) == Mine(old(db.history), me) + [Ensure(me, w.fault)]
      ensures IssuedAt(|db.history| - 1, Ensure(me, w.fault))
    {
      hide Reorganize, MissingMonths, MonthClause, Exec, Executed;
      var toAdd := CollectMissing(existing, now);
      if toAdd == [] {
        db.Progress(me, Ensured, Ensure(me, w.fault));
        assert db.history == old(db.history) + [] + [Ensure(me, w.fault)];
        assert db.history[..|db.history| - 1] == old(db.history);
        return true;
      }
      db.Await(me, w.others);
      ghost var before := db.Here();
      var errno := db.Execute(Reorganize(db.table, toAdd), w.fault);
      ok := errno.None? || errno.value == ER_DUPLICATE_NAME;
      db.insts := db.insts[me := if ok then Ensured else Leaving(true)];
      db.Record(Ensure(me, w.fault), before);
      MineAppend(old(db.history) + w.others, Ensure(me, w.fault), me);
      assert db.history[..|db.history| - 1] == old(db.history) + w.others;
    }

    /** The clock reading moved back in place to the cutoff. */
    method RetentionCutoff(now: Clock) returns (cutoff: Date)
      ensures cutoff == FirstOf(now.month - 24 + (if now.month % 12 == 1 && now.day == 29 then 1 else 0))
      ensures cutoff == Cutoff(now)
    {
      CutoffIsRetentionMonthsBackUnlessLeapDay(now);
      hide SetMonth, SetDay;
      cutoff := now;
      cutoff := SetMonth(cutoff, cutoff.month - RETENTION_MONTHS);
      cutoff := SetDay(cutoff, 1);
      cutoff := SetMidnight(cutoff);
    }

    /** The names to drop, in the order they are listed. */
    method CollectExpired(existing: seq<string>, cutoff: Date) returns (toDrop: seq<string>)
      ensures toDrop == ExpiredNames(existing, cutoff)
    {
      hide IsExpired;
      toDrop := [];
      for k := 0 to |existing|
        invariant toDrop + ExpiredNames(existing[k..], cutoff) == ExpiredNames(existing, cutoff)
      {
        var name := existing[k];
        assert existing[k..][0] == name && existing[k..][1..] == existing[k + 1..];
        if IsExpired(name, cutoff) {
          var rest := ExpiredNames(existing[k + 1..], cutoff);
          assert toDrop + ([name] + rest) == (toDrop + [name]) + rest;
          toDrop := toDrop + [name];
        }
      }
    }

    /** Drops every partition named after a month before the cutoff. A failure of the statement
        is only logged, a failure of the listing is passed on. */
    method DropExpiredPartitions(listing: Wait, dropping: Wait) returns (ok: bool)
      requires Ready(Ensured) && OthersOnly(listing.others, me) && OthersOnly(dropping.others, me)
      modifies db
      ensures Ready(Leaving(!ok)) && old(db.history) <= db.history
      ensures ok <==> listing.fault == NoFault
      ensures ok ==> |db.history| > |old(db.history)| && IssuedAt(|db.history| - 1, DropExpired(me, dropping.fault))
      ensures Mine(db.history, me) == Mine(old(db.history), me) +
        if ok then [ReadClock(me), ListPartitions(me), DropExpired(me, dropping.fault)] else [ReadClock(me), Abort(me)]
    {
      hide Cutoff, Exec, Mine, ExpiredNames, Step;
      var now := db.Now(me);
      var cutoff := RetentionCutoff(now);
      db.Await(me, listing.others);
      if listing.fault != NoFault {
        db.ListingFails(me);
        return false;
      }
      var existing := db.ExistingPartitions(me);
      var toDrop := CollectExpired(existing, cutoff);
      DropListed(existing, now, toDrop, dropping);
      ok := true;
    }

    /** Issues the drop of the expired among the listed names, if there are any. */
    method DropListed(existing: seq<string>, now: Clock, toDrop: seq<string>, w: Wait)
      requires Ready(ListedAgain(existing, now)) && OthersOnly(w.others, me)
      requires toDrop == ExpiredNames(existing, Cutoff(now))
      modifies db
      ensures Ready(Leaving(false))
      ensures var others := if toDrop == [] then [] else w.others;
        db.history == old(db.history) + others + [DropExpired(me, w.fault)]
      ensures Mine(db.history, me) == Mine(old(db.history), me) + [DropExpired(me, w.fault)]
      ensures IssuedAt(|db.history| - 1, DropExpired(me, w.fault))
    {
      hide DropPartitions, ExpiredNames, Cutoff, Exec, Executed, Mine;
      if toDrop == [] {
        db.Progress(me, Leaving(false), DropExpired(me, w.fault));
        assert db.history == old(db.history) + [] + [DropExpired(me, w.fault)];
        assert db.history[..|db.history| - 1] == old(db.history);
        return;
      }
      db.Await(me, w.others);
      ghost var before := db.Here();
      var errno := db.Execute(DropPartitions(db.table, toDrop), w.fault);
      db.insts := db.insts[me := Leaving(false)];
      MineAppend(db.history, DropExpired(me, w.fault), me);
      db.Record(DropExpired(me, w.fault), before);
      assert db.history[..|db.history| - 1] == old(db.history) + w.others;
    }

    /** The instance's adding statement is the step `at` of the history, and led to `phase`. */
    ghost predicate AddedAt(at: nat, fault: Fault, phase: Phase)
      reads db
    {
      IssuedAt(at, Ensure(me, fault)) && LedTo(db.start, db.history, me, at, phase)
    }

    /** The section under the lock: list, fill the window, and unless that failed, drop. `at`
        and `dropped` are where the two statements are in the history, if they were made. */
    method MaintainLocked(w: seq<Wait>) returns (ending: Ending, ghost at: nat, ghost dropped: nat)
      requires Ready(Locked) && |w| == 4 && forall k | 0 <= k < |w| :: OthersOnly(w[k].others, me)
      modifies db
      ensures db.Valid() && me < |db.insts| && db.insts[me].Leaving? && old(db.history) <= db.history
      ensures !ending.LockQueryFailed? && !ending.LockTaken?
      ensures ending.ListingFailed? <==> w[0].fault != NoFault
      ensures !ending.ListingFailed? ==>
        AddedAt(at, w[1].fault, if ending.AddingFailed? then Leaving(true) else Ensured)
      ensures !ending.ListingFailed? && !ending.AddingFailed? ==>
        (ending.SecondListingFailed? <==> w[2].fault != NoFault)
      ensures ending.Completed? ==>
        |old(db.history)| <= at < dropped && IssuedAt(dropped, DropExpired(me, w[3].fault))
      ensures Mine(db.history, me) == Mine(old(db.history), me) + LockedSteps(ending, me, w[1].fault, w[3].fault)
    {
      hide Exec, Mine, OthersOnly, Step, Issued, LedTo;
      db.Await(me, w[0].others);
      if w[0].fault != NoFault {
        db.ListingFails(me);
        return ListingFailed, 0, 0;
      }
      var existing := db.ExistingPartitions(me);
      var now := db.Now(me);
      var ok := AddPartitions(existing, now, w[1]);
      at := |db.history| - 1;
      if !ok {
        return AddingFailed, at, 0;
      }
      ghost var added := db.history;
      ok := DropExpiredPartitions(w[2], w[3]);
      HistoryStays(db.start, added, db.history, me, at, Ensure(me, w[1].fault), Ensured);
      dropped := |db.history| - 1;
      ending := if ok then Completed else SecondListingFailed;
    }

    /** Partitions the table for the first time, or fills up its window. */
    method AddPartitions(existing: seq<string>, now: Clock, w: Wait) returns (ok: bool)
      requires Ready(Adding(existing, now)) && OthersOnly(w.others, me)
      modifies db
      ensures Ready(if ok then Ensured else Leaving(true)) && old(db.history) <= db.history
      ensures |db.history| > |old(db.history)|
      ensures AddedAt(|db.history| - 1, w.fault, if ok then Ensured else Leaving(true))
      ensures Mine(db.history, me) == Mine(old(db.history), me) + [Ensure(me, w.fault)]
    {
      hide Exec, Mine, OthersOnly, IssuesEnsure;
      if |existing| == 0 {
        var errno := InitialPartitioning(now, w);
        ok := errno == None;
      } else {
        ok := EnsureFuturePartitions(existing, now, w);
      }
      assert db.history[..|db.history| - 1 + 1] == db.history;
    }

    /** How the run ends, by the lock it found and the faults it met. */
    ghost predicate EndsFor(ending: Ending, found: Option<Holder>, acquireOn: nat, w: seq<Wait>, at: nat)
      requires |w| == 6
      reads db
    {
      if w[0].fault != NoFault then ending == LockQueryFailed
      else if found.Some? && !(found.value.inst == me && found.value.conn == acquireOn) then ending == LockTaken
      else if w[1].fault != NoFault then ending == ListingFailed
      else if AddedAt(at, w[2].fault, Leaving(true)) then ending == AddingFailed
      else
        && AddedAt(at, w[2].fault, Ensured)
        && ending == if w[3].fault != NoFault then SecondListingFailed else Completed
    }

    /** After step `since` of the history, the instance added and then dropped. */
    ghost predicate Drops(since: nat, fault: Fault, at: nat, dropped: nat)
      reads db
    {
      since <= at < dropped && IssuedAt(dropped, DropExpired(me, fault))
    }

    /** One maintenance run: nothing without the lock; otherwise the locked section, and the
        release whatever its outcome, possibly on another connection. It ends as it does
        exactly for what it meets, in this order: the failing lock query, the lock held
        elsewhere, the failing listing, the adding step that fails, the failing listing. */
    method RunMaintenance(acquireOn: nat, releaseOn: nat, w: seq<Wait>)
        returns (ending: Ending, ghost at: nat, ghost dropped: nat)
      requires Ready(Outside) && |w| == 6 && forall k | 0 <= k < |w| :: OthersOnly(w[k].others, me)
      modifies db
      ensures Ready(Outside) && old(db.history) <= db.history
      ensures Mine(db.history, me) ==
        Mine(old(db.history), me) + OwnSteps(ending, me, acquireOn, releaseOn, w[2].fault, w[4].fault)
      ensures EndsFor(ending, Exec(old(db.Here()), w[0].others).lock, acquireOn, w, at)
      ensures ending.Completed? ==> Drops(|old(db.history)|, w[4].fault, at, dropped)
      ensures ending.Completed? ==>
        && |old(db.history)| <= dropped < |db.history| && db.history[dropped] == DropExpired(me, w[4].fault)
        && (IsStart(db.start) && KeepsConnections(db.start, db.history) && !w[4].fault.NotExecuted? ==>
              var dropping, after := Exec(db.start, db.history[..dropped]), Exec(db.start, db.history[..dropped + 1]);
              && me < |dropping.insts| && dropping.insts[me].ListedAgain?
              && forall p | p in after.table.parts :: MonthIn(p) >= dropping.insts[me].now.month - 24)
    {
      hide Exec, Mine, LockedSteps, OthersOnly, IssuedAt, IsStart, KeepsConnections, MonthIn, Step;
      db.Await(me, w[0].others);
      if w[0].fault != NoFault {
        return LockQueryFailed, 0, 0;
      }
      MineAppend(db.history, Acquire(me, acquireOn), me);
      var acquired := db.GetLock(me, acquireOn);
      if !acquired {
        return LockTaken, 0, 0;
      }
      ghost var mine := Mine(old(db.history), me);
      ending, at, dropped := MaintainAndRelease(releaseOn, w[1..]);
      ghost var locked := LockedSteps(ending, me, w[2].fault, w[4].fault);
      assert mine + ([Acquire(me, acquireOn)] + locked + [Release(me, releaseOn)])
          == mine + [Acquire(me, acquireOn)] + locked + [Release(me, releaseOn)];
      DropsOldMonths(this, |old(db.history)|, w[4].fault, at, dropped);
      if ending.Completed? {
        IssuedMeans(dropped, DropExpired(me, w[4].fault));
      }
    }

    lemma IssuedMeans(at: nat, a: Action)
      requires IssuedAt(at, a)
      ensures at < |db.history| && db.history[at] == a
    {
    }

    /** The locked section, and the release whatever its outcome. */
    method MaintainAndRelease(releaseOn: nat, w: seq<Wait>) returns (ending: Ending, ghost at: nat, ghost dropped: nat)
      requires Ready(Locked) && |w| == 5 && forall k | 0 <= k < |w| :: OthersOnly(w[k].others, me)
      modifies db
      ensures Ready(Outside) && old(db.history) <= db.history
      ensures !ending.LockQueryFailed? && !ending.LockTaken?
      ensures ending.ListingFailed? <==> w[0].fault != NoFault
      ensures !ending.ListingFailed? ==>
        AddedAt(at, w[1].fault, if ending.AddingFailed? then Leaving(true) else Ensured)
      ensures !ending.ListingFailed? && !ending.AddingFailed? ==>
        (ending.SecondListingFailed? <==> w[2].fault != NoFault)
      ensures ending.Completed? ==> Drops(|old(db.history)|, w[3].fault, at, dropped)
      ensures Mine(db.history, me) ==
        Mine(old(db.history), me) + LockedSteps(ending, me, w[1].fault, w[3].fault) + [Release(me, releaseOn)]
    {
      hide Exec, Mine, LockedSteps, OthersOnly, ListNames, EnsureOutcome, DropOutcome, Step;
      ending, at, dropped := MaintainLocked(w[..4]);
      ghost var inside := db.history;
      db.Await(me, w[4].others);
      MineAppend(db.history, Release(me, releaseOn), me);
      db.ReleaseLock(me, releaseOn);
      ghost var phase := if ending.AddingFailed? then Leaving(true) else Ensured;
      HistoryStays(db.start, inside, db.history, me, at, Ensure(me, w[1].fault), phase);
      HistoryStays(db.start, inside, db.history, me, dropped, DropExpired(me, w[3].fault), phase);
    }

    /** Sets the timer for the first of the next month, unless destroyed. */
    method ScheduleNext(now: Date)
      modifies this`timer, loop
      ensures Timing() == Timers.ScheduleNext(old(Timing()), now)
    {
      if destroyed {
        return;
      }
      var next := FirstOf(now.month + 1);
      var delay := Millis(next) - Millis(now);
      var t := loop.SetTimeout(Millis(now), delay);
      timer := Some(t);
    }

    method OnModuleDestroy()
      modifies this`destroyed, loop`pending
      ensures Timing() == Timers.Step(old(Timing()), Timers.Destroy)
    {
      destroyed := true;
      if timer.Some? {
        loop.ClearTimeout(timer.value);
      }
    }

    /** Start-up: run maintenance, whatever its outcome, then schedule. The module may be
        destroyed while the run is in progress. */
    method OnModuleInit(acquireOn: nat, releaseOn: nat, w: seq<Wait>, destroyedMeanwhile: bool)
        returns (ending: Ending, ghost at: nat, ghost dropped: nat)
      requires Ready(Outside) && |w| == 6 && forall k | 0 <= k < |w| :: OthersOnly(w[k].others, me)
      requires Timing() == Timers.FRESH
      modifies this, db, loop
      ensures Ready(Outside) && old(db.history) <= db.history
      ensures Mine(db.history, me) ==
        Mine(old(db.history), me) + OwnSteps(ending, me, acquireOn, releaseOn, w[2].fault, w[4].fault)
      ensures EndsFor(ending, Exec(old(db.Here()), w[0].others).lock, acquireOn, w, at)
      ensures ending.Completed? ==> Drops(|old(db.history)|, w[4].fault, at, dropped)
      ensures Timing() == Timers.Exec(old(Timing()),
        [Timers.Init] + (if destroyedMeanwhile then [Timers.Destroy] else []) + [Timers.Finish(db.clock)])
    {
      hide Mine, Exec, OwnSteps, OthersOnly;
      ghost var before := Timing();
      running, starts := running + 1, starts + 1;
      ending, at, dropped := RunMaintenance(acquireOn, releaseOn, w);
      if destroyedMeanwhile {
        OnModuleDestroy();
      }
      running := running - 1;
      ScheduleNext(db.clock);
      TimerRun(before, Timers.Init, destroyedMeanwhile, db.clock);
    }

    /** The timer's callback: run maintenance, then schedule again. */
    method OnTimer(t: Timers.Timer, acquireOn: nat, releaseOn: nat, w: seq<Wait>, destroyedMeanwhile: bool)
        returns (ending: Ending, ghost at: nat, ghost dropped: nat)
      requires Ready(Outside) && |w| == 6 && forall k | 0 <= k < |w| :: OthersOnly(w[k].others, me)
      requires t in loop.pending
      modifies this, db, loop
      ensures Ready(Outside) && old(db.history) <= db.history
      ensures Mine(db.history, me) ==
        Mine(old(db.history), me) + OwnSteps(ending, me, acquireOn, releaseOn, w[2].fault, w[4].fault)
      ensures EndsFor(ending, Exec(old(db.Here()), w[0].others).lock, acquireOn, w, at)
      ensures ending.Completed? ==> Drops(|old(db.history)|, w[4].fault, at, dropped)
      ensures Timing() == Timers.Exec(old(Timing()),
        [Timers.Fire(t)] + (if destroyedMeanwhile then [Timers.Destroy] else []) + [Timers.Finish(db.clock)])
    {
      hide Mine, Exec, OwnSteps, OthersOnly;
      ghost var before := Timing();
      loop.ClearTimeout(t);
      running, starts := running + 1, starts + 1;
      ending, at, dropped := RunMaintenance(acquireOn, releaseOn, w);
      if destroyedMeanwhile {
        OnModuleDestroy();
      }
      running := running - 1;
      ScheduleNext(db.clock);
      TimerRun(before, Timers.Fire(t), destroyedMeanwhile, db.clock);
    }
  }

  lemma MissingMonthsUnfold(n: nat, names: seq<string>, from: nat, found: seq<nat>)
    requires n <= from <= n + AHEAD
    ensures found + MissingMonths(n, names, from) ==
      (if PartitionName(from) in names then found else found + [from]) + MissingMonths(n, names, from + 1)
  {
    hide PartitionName;
    var rest := MissingMonths(n, names, from + 1);
    assert MissingMonths(n, names, from) == (if PartitionName(from) in names then [] else [from]) + rest;
    assert found + ([from] + rest) == (found + [from]) + rest;
  }

  lemma MissingMonthsEnd(n: nat, names: seq<string>)
    ensures MissingMonths(n, names, n + AHEAD + 1) == []
  {
  }

  lemma TimerRun(s: Timers.State, start: Timers.Action, destroyedMeanwhile: bool, finishedAt: Date)
    ensures
      Timers.Exec(s, [start] + (if destroyedMeanwhile then [Timers.Destroy] else []) + [Timers.Finish(finishedAt)]) ==
      var started := Timers.Step(s, start);
      var later := if destroyedMeanwhile then Timers.Step(started, Timers.Destroy) else started;
      Timers.Step(later, Timers.Finish(finishedAt))
  {
    var finish := Timers.Finish(finishedAt);
    var middle := if destroyedMeanwhile then [Timers.Destroy] else [];
    var acts := [start] + middle + [finish];
    var started := Timers.Step(s, start);
    assert acts[0] == start && acts[1..] == middle + [finish];
    assert Timers.Exec(s, acts) == Timers.Exec(started, middle + [finish]);
    var later := if destroyedMeanwhile then Timers.Step(started, Timers.Destroy) else started;
    assert Timers.Exec(started, middle + [finish]) == Timers.Exec(later, [finish]) by {
      assert destroyedMeanwhile ==> (middle + [finish])[0] == Timers.Destroy && (middle + [finish])[1..] == [finish];
      assert !destroyedMeanwhile ==> middle + [finish] == [finish];
    }
    assert Timers.Exec(later, [finish]) == Timers.Step(later, finish) by {
      assert [finish][1..] == [];
    }
  }

  /** Whatever was interleaved, a database first met sound has lost no retained row. */
  lemma DatabaseKeepsRetainedRows(db: ApiLogDatabase, row: int)
    requires db.Valid() && Sound(db.start) && row >= Millis(Cutoff(db.clock))
    ensures multiset(db.table.rows)[row] == multiset(db.start.table.rows)[row] + TimesLogged(db.history, row)
  {
    RetainedRowsAreConserved(db.start, db.history, row);
  }

  /** While no connection that owned the lock was closed inside, at most one of its instances is
      inside, and what that one is about to issue is legal. */
  lemma DatabaseIsMaintainedByOne(db: ApiLogDatabase, i: nat, j: nat)
    requires db.Valid() && IsStart(db.start) && KeepsConnections(db.start, db.history)
    requires i < |db.insts| && j < |db.insts| && db.insts[i] != Outside && db.insts[j] != Outside
    ensures i == j && NextStatementIsLegal(db.Here(), db.insts[i])
  {
    hide NextStatementIsLegal, Exec, KeepsConnections;
    MutualExclusion(db.start, db.history, i, j);
    EveryStatementIsLegal(db.start, db.history, i);
  }

  /** What a completed run means, whatever else went on, on a database that started with every
      instance outside and never had an owning connection closed inside: right after its drop
      took effect no partition of a month before the retention of its reading is left; and with
      the adding statement in effect every month of its window has a partition, as long as the
      clock has not moved out of that window's retention. */
  lemma CompletedRunMaintains(service: ApiLogPartitionService, ending: Ending, found: Option<Holder>, acquireOn: nat,
                              w: seq<Wait>, since: nat, at: nat, dropped: nat)
    requires |w| == 6 && service.db.Valid() && ending == Completed
    requires service.EndsFor(ending, found, acquireOn, w, at) && service.Drops(since, w[4].fault, at, dropped)
    requires IsStart(service.db.start) && KeepsConnections(service.db.start, service.db.history)
    ensures forall k | 0 <= k < 4 :: k == 2 || w[k].fault == NoFault
    ensures var history := service.db.history;
      && since <= at < dropped < |history|
      && history[at] == Ensure(service.me, w[2].fault) && history[dropped] == DropExpired(service.me, w[4].fault)
    ensures var adding, dropping, after := Exec(service.db.start, service.db.history[..at]),
                                           Exec(service.db.start, service.db.history[..dropped]),
                                           Exec(service.db.start, service.db.history[..dropped + 1]);
      && service.me < |adding.insts| && adding.insts[service.me].Adding?
      && service.me < |dropping.insts| && dropping.insts[service.me].ListedAgain?
      && var n, now := adding.insts[service.me].now.month, dropping.insts[service.me].now;
      && (!w[4].fault.NotExecuted? ==> forall p | p in after.table.parts ::
            MonthIn(p) >= now.month - 24 + (if now.month % 12 == 1 && now.day == 29 then 1 else 0))
      && (!w[2].fault.NotExecuted? && after.clock.month < n + 24 ==>
            forall m | n <= m <= n + 3 :: HasMonth(after.table.parts, m))
  {
    hide Exec, KeepsConnections, IsStart, HasMonth, MonthIn, Cutoff, WindowCovered;
    var db, me := service.db, service.me;
    var dropping := Exec(db.start, db.history[..dropped]);
    var now := dropping.insts[me].now;
    CutoffIsRetentionMonthsBackUnlessLeapDay(now);
    if !w[4].fault.NotExecuted? {
      DropInRun(db.start, db.history, me, w[4].fault, dropped);
    }
    if !w[2].fault.NotExecuted? {
      AddInRun(db.start, db.history, me, w[2].fault, at, dropped + 1);
      CutoffIsRetentionMonthsBackUnlessLeapDay(Exec(db.start, db.history[..dropped + 1]).clock);
      var n := Exec(db.start, db.history[..at]).insts[me].now.month;
      WindowOfThree(Exec(db.start, db.history[..dropped + 1]).table.parts, n);
    }
  }

  lemma DropsOldMonths(service: ApiLogPartitionService, since: nat, fault: Fault, at: nat, dropped: nat)
    ensures service.Drops(since, fault, at, dropped) && IsStart(service.db.start) &&
            KeepsConnections(service.db.start, service.db.history) && !fault.NotExecuted? ==>
      var dropping := Exec(service.db.start, service.db.history[..dropped]);
      && service.me < |dropping.insts| && dropping.insts[service.me].ListedAgain?
      && forall p | p in Exec(service.db.start, service.db.history[..dropped + 1]).table.parts ::
           MonthIn(p) >= dropping.insts[service.me].now.month - 24
  {
    hide Exec, KeepsConnections, IsStart, MonthIn, Cutoff;
    var db := service.db;
    if service.Drops(since, fault, at, dropped) && IsStart(db.start) && KeepsConnections(db.start, db.history)
       && !fault.NotExecuted? {
      DropInRun(db.start, db.history, service.me, fault, dropped);
      CutoffIsRetentionMonthsBackUnlessLeapDay(Exec(db.start, db.history[..dropped]).insts[service.me].now);
    }
  }

  lemma WindowOfThree(parts: seq<Part>, n: int)
    ensures WindowCovered(parts, n) ==> forall m | n <= m <= n + 3 :: HasMonth(parts, m)
  {
    hide HasMonth;
  }

  /** Why a run did not complete: the first thing that failed, and only that. */
  lemma EndingsAreForcedByWhatWasMet(service: ApiLogPartitionService, ending: Ending, found: Option<Holder>,
                                     acquireOn: nat, w: seq<Wait>, at: nat)
    requires |w| == 6 && service.EndsFor(ending, found, acquireOn, w, at)
    ensures ending == LockQueryFailed <==> w[0].fault != NoFault
    ensures ending == LockTaken <==>
      w[0].fault == NoFault && found.Some? && (found.value.inst, found.value.conn) != (service.me, acquireOn)
    ensures found == None && w[0].fault == NoFault ==> (ending == ListingFailed <==> w[1].fault != NoFault)
    ensures found == None && w[0].fault == w[1].fault == NoFault && w[3].fault == NoFault ==>
      ending == AddingFailed || ending == Completed
    ensures ending == AddingFailed ==>
      at < |service.db.history| && var s := Exec(service.db.start, service.db.history[..at + 1]);
      service.me < |s.insts| && s.insts[service.me] == Leaving(true)
    ensures ending == Completed ==>
      at < |service.db.history| && var s := Exec(service.db.start, service.db.history[..at + 1]);
      service.me < |s.insts| && s.insts[service.me] == Ensured
  {
    hide Exec;
  }
}
