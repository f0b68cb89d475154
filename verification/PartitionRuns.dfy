/**
 Maintenance of the API-log partitions by several instances over time: the advisory lock is
 held by a pooled connection, statements may fail or lose their reply, instances may crash,
 and between any two steps the clock may advance and rows may be logged.
 */
module PartitionRuns {
  import opened Optional
  import opened Calendar
  import opened PartitionNames
  import opened PartitionTable
  import opened PartitionPlan
  import opened PartitionInvariant

  /** How far an instance is in its maintenance section, with the names and the clock reading
      its next statement is built from. `Leaving` says whether an error is on its way. */
  datatype Phase =
    | Outside
    | Locked
    | Listed(names: seq<string>)
    | Adding(names: seq<string>, now: Clock)
    | Ensured
    | Dropping(now: Clock)
    | ListedAgain(names: seq<string>, now: Clock)
    | Leaving(failing: bool)

  /** The connection that holds the lock; one connection may hold it several times. */
  datatype Holder = Holder(inst: nat, conn: nat, depth: nat)

  datatype State = State(table: Table, clock: Clock, lock: Option<Holder>, insts: seq<Phase>)

  /** A statement may be stopped before it takes effect, or take effect with its reply lost. */
  datatype Fault = NoFault | NotExecuted(errno: int) | ReplyLost(errno: int)

  datatype Action =
    | Tick(to: Clock)
    | LogRow(row: int)
    | Acquire(inst: nat, conn: nat)
    | ListPartitions(inst: nat)
    | ReadClock(inst: nat)
    | Ensure(inst: nat, fault: Fault)
    | DropExpired(inst: nat, fault: Fault)
    | Abort(inst: nat)
    | Release(inst: nat, conn: nat)
    | CloseConnection(inst: nat, conn: nat)
    | Crash(inst: nat)

  /** What a statement does to the table, and the error number its client sees, if any. */
  function Executed(t: Table, statement: DdlResult, fault: Fault): (Table, Option<int>) {
    match fault
    case NotExecuted(errno) => (t, Some(errno))
    case _ =>
      match statement
      case Altered(t') => (t', if fault.ReplyLost? then Some(fault.errno) else None)
      case Refused(errno) => (t, Some(errno))
  }

  /** The statement that fills the window, when there is one to issue. */
  function EnsureStatement(t: Table, names: seq<string>, n: nat): DdlResult {
    if names == [] then PartitionBy(t, WindowClauses(n, [])) else Reorganize(t, WindowClauses(n, names))
  }

  predicate IssuesEnsure(names: seq<string>, n: nat) {
    names == [] || MissingMonths(n, names, n) != []
  }

  /** A duplicate name is ignored when adding, never when partitioning for the first time. */
  function EnsureOutcome(t: Table, names: seq<string>, n: nat, fault: Fault): (Table, Phase) {
    if !IssuesEnsure(names, n) then (t, Ensured)
    else
      var (t', errno) := Executed(t, EnsureStatement(t, names, n), fault);
      (t', if errno.None? || (names != [] && errno.value == ER_DUPLICATE_NAME) then Ensured else Leaving(true))
  }

  /** A failed drop is logged and otherwise ignored. */
  function DropOutcome(t: Table, names: seq<string>, now: Clock, fault: Fault): Table {
    var expired := ExpiredNames(names, Cutoff(now));
    if expired == [] then t else Executed(t, DropPartitions(t, expired), fault).0
  }

  function AfterAcquire(lock: Option<Holder>, inst: nat, conn: nat): Option<Holder> {
    match lock
    case None => Some(Holder(inst, conn, 1))
    case Some(h) => if h.inst == inst && h.conn == conn then Some(h.(depth := h.depth + 1)) else lock
  }

  predicate Holds(lock: Option<Holder>, inst: nat, conn: nat) {
    lock.Some? && lock.value.inst == inst && lock.value.conn == conn
  }

  /** RELEASE_LOCK takes effect only on the connection that owns the lock. */
  function AfterRelease(lock: Option<Holder>, inst: nat, conn: nat): Option<Holder> {
    if !Holds(lock, inst, conn) then lock
    else if lock.value.depth <= 1 then None
    else Some(lock.value.(depth := lock.value.depth - 1))
  }

  function Step(s: State, a: Action): State {
    match a
    case Tick(to) => if Millis(s.clock) <= Millis(to) then s.(clock := to) else s
    case LogRow(row) => s.(table := s.table.(rows := s.table.rows + [row]))
    case _ =>
      if a.inst >= |s.insts| then s else StepInstance(s, a)
  }

  function StepInstance(s: State, a: Action): State
    requires !a.Tick? && !a.LogRow? && a.inst < |s.insts|
  {
    var i := a.inst;
    match (a, s.insts[i])
    case (Acquire(_, conn), Outside) =>
      var lock := AfterAcquire(s.lock, i, conn);
      if Holds(lock, i, conn) then s.(lock := lock, insts := s.insts[i := Locked]) else s
    case (ListPartitions(_), Locked) => s.(insts := s.insts[i := Listed(ListNames(s.table))])
    case (ReadClock(_), Listed(names)) => s.(insts := s.insts[i := Adding(names, s.clock)])
    case (Ensure(_, fault), Adding(names, now)) =>
      var (table, phase) := EnsureOutcome(s.table, names, now.month, fault);
      s.(table := table, insts := s.insts[i := phase])
    case (ReadClock(_), Ensured) => s.(insts := s.insts[i := Dropping(s.clock)])
    case (ListPartitions(_), Dropping(now)) => s.(insts := s.insts[i := ListedAgain(ListNames(s.table), now)])
    case (DropExpired(_, fault), ListedAgain(names, now)) =>
      s.(table := DropOutcome(s.table, names, now, fault), insts := s.insts[i := Leaving(false)])
    case (Abort(_), Locked) => s.(insts := s.insts[i := Leaving(true)])
    case (Abort(_), Dropping(_)) => s.(insts := s.insts[i := Leaving(true)])
    case (Release(_, conn), Leaving(_)) =>
      s.(lock := AfterRelease(s.lock, i, conn), insts := s.insts[i := Outside])
    case (CloseConnection(_, conn), _) =>
      if Holds(s.lock, i, conn) then s.(lock := None) else s
    case (Crash(_), _) =>
      s.(lock := if s.lock.Some? && s.lock.value.inst == i then None else s.lock, insts := s.insts[i := Outside])
    case _ => s
  }

  function Exec(s: State, actions: seq<Action>): State
    decreases |actions|
  {
    if actions == [] then s else Exec(Step(s, actions[0]), actions[1..])
  }

  lemma StepKeepsClock(s: State, a: Action)
    ensures Millis(s.clock) <= Millis(Step(s, a).clock) && |Step(s, a).insts| == |s.insts|
  {
    hide EnsureOutcome, DropOutcome, ListNames, Millis;
  }

  lemma {:induction false} ClockAdvances(s: State, actions: seq<Action>)
    ensures Millis(s.clock) <= Millis(Exec(s, actions).clock) && |Exec(s, actions).insts| == |s.insts|
    decreases |actions|
  {
    hide Step, Millis;
    if actions != [] {
      StepKeepsClock(s, actions[0]);
      ClockAdvances(Step(s, actions[0]), actions[1..]);
    }
  }

  lemma {:induction false} ExecAppend(s: State, xs: seq<Action>, ys: seq<Action>)
    ensures Exec(s, xs + ys) == Exec(Exec(s, xs), ys)
    decreases |xs|
  {
    hide Step;
    if xs == [] {
      assert xs + ys == ys;
    } else {
      assert (xs + ys)[0] == xs[0] && (xs + ys)[1..] == xs[1..] + ys;
      ExecAppend(Step(s, xs[0]), xs[1..], ys);
    }
  }

  // ---------------------------------------------------------------- dates and cutoffs

  lemma CutoffIsInThePast(now: Date)
    requires ValidDate(now)
    ensures Cutoff(now) == FirstOf(Cutoff(now).month) && Cutoff(now).month < now.month
  {
    hide Cutoff;
    CutoffIsRetentionMonthsBackUnlessLeapDay(now);
  }

  lemma EarlierCutoff(earlier: Date, later: Date)
    requires ValidDate(earlier) && ValidDate(later) && Millis(earlier) <= Millis(later)
    ensures Cutoff(earlier).month <= Cutoff(later).month
    ensures Millis(Cutoff(earlier)) <= Millis(Cutoff(later))
  {
    hide Cutoff, MonthStart;
    CutoffAdvances(earlier, later);
    CutoffIsInThePast(earlier);
    CutoffIsInThePast(later);
    MonthStartOrders(Cutoff(earlier).month, Cutoff(later).month);
  }

  /** The clock reading an instance still acts on. */
  function HeldDate(phase: Phase): Option<Clock> {
    match phase
    case Adding(_, now) => Some(now)
    case Dropping(now) => Some(now)
    case ListedAgain(_, now) => Some(now)
    case _ => None
  }

  // ---------------------------------------------------------------- with or without the lock

  /** What every run keeps, whether or not the lock excludes: the partitions match their
      months in order, and no clock reading held is in the future. */
  ghost predicate Sound(s: State) {
    TableSound(s.table) && HeldAreRead(s)
  }

  ghost predicate HeldAreRead(s: State) {
    forall i | 0 <= i < |s.insts| && HeldDate(s.insts[i]).Some? ::
      Millis(HeldDate(s.insts[i]).value) <= Millis(s.clock)
  }

  lemma WindowMonthsInRange(now: Clock, names: seq<string>)
    ensures forall m | m in MissingMonths(now.month, names, now.month) ::
      now.month <= m <= now.month + AHEAD && InRange(m) && InRange(m + 1) && PartitionName(m) !in names
  {
    hide PartitionName, MissingMonths;
    forall m | m in MissingMonths(now.month, names, now.month)
      ensures now.month <= m <= now.month + AHEAD && PartitionName(m) !in names
    {
      MissingMonthsMember(now.month, names, now.month, m);
    }
  }

  /** The adding statement built from any names, however stale, on a sound table: the server
      accepts it exactly when the months it adds come after every partition, and the outcome
      is sound with the same rows. */
  lemma AnyEnsureStatement(t: Table, names: seq<string>, now: Clock)
    requires TableSound(t)
    ensures var months := MissingMonths(now.month, names, now.month);
      var result := EnsureStatement(t, names, now.month);
      && (names == [] ==> result == Altered(Table(true, MonthParts(months), t.rows)))
      && (names != [] && t.partitioned ==>
            && (result.Altered? <==> ComeAfter(t.parts, months))
            && (result.Altered? ==> result.table == Table(true, t.parts + MonthParts(months), t.rows)))
      && (result.Altered? ==> TableSound(result.table) && result.table.partitioned && result.table.rows == t.rows)
  {
    hide PartitionName, MissingMonths, MonthParts, MonthIn, Made, Extend, MonthClauses, MonthsIncrease;
    var months := MissingMonths(now.month, names, now.month);
    WindowMonthsInRange(now, names);
    MissingMonthsIncrease(now.month, names, now.month);
    if names == [] {
      ExtendingIsLegalIff(Table(true, [], t.rows), months);
      assert [] + MonthParts(months) == MonthParts(months);
    } else if t.partitioned {
      ExtendingIsLegalIff(t, months);
    }
  }

  /** Whatever names it was built from and however its statement fares, the adding step keeps
      a table sound and its rows; it removes no partition unless it was built from none, and
      adds none of a month before its own. */
  lemma AnyEnsureIsSound(t: Table, names: seq<string>, now: Clock, fault: Fault)
    requires TableSound(t)
    ensures var t' := EnsureOutcome(t, names, now.month, fault).0;
      && TableSound(t') && t'.rows == t.rows && (t.partitioned ==> t'.partitioned)
      && (fault.NotExecuted? ==> t' == t)
      && (names != [] ==> t.parts <= t'.parts)
      && (forall p | p in t'.parts :: p in t.parts || MonthIn(p) >= now.month)
  {
    hide EnsureStatement, MissingMonths, MonthParts, MonthIn, WellMade, IssuesEnsure;
    AnyEnsureStatement(t, names, now);
    WindowMonthsInRange(now, names);
    var months := MissingMonths(now.month, names, now.month);
    forall p | p in MonthParts(months) ensures MonthIn(p) >= now.month {
      MonthPartsAreOfMonths(months, p);
    }
    UnpartitionedIsRefused(t, names, now.month);
  }

  /** When the adding step counts as done: there was nothing to add, the statement was accepted
      and answered, or, unless it was the first partitioning, the client saw error 1517. Any
      other error is passed on. */
  lemma OnlyDuplicateNamesAreIgnored(t: Table, names: seq<string>, n: nat, fault: Fault)
    ensures var statement := EnsureStatement(t, names, n);
      var errno := match fault
        case NotExecuted(e) => Some(e)
        case NoFault => if statement.Refused? then Some(statement.errno) else None
        case ReplyLost(e) => if statement.Refused? then Some(statement.errno) else Some(e);
      var phase := EnsureOutcome(t, names, n, fault).1;
      && (phase == Ensured <==>
            (names != [] && MissingMonths(n, names, n) == []) || errno == None || (names != [] && errno == Some(1517)))
      && (phase != Ensured ==> phase == Leaving(true))
  {
    hide EnsureStatement, MissingMonths;
  }

  lemma UnpartitionedIsRefused(t: Table, names: seq<string>, n: nat)
    ensures names != [] && !t.partitioned ==> EnsureStatement(t, names, n).Refused?
  {
  }

  lemma MonthPartsAreOfMonths(months: seq<nat>, p: Part)
    requires p in MonthParts(months) && forall m | m in months :: InRange(m) && InRange(m + 1)
    ensures MonthIn(p) in months
  {
    hide MonthIn, MonthPart;
    var i :| 0 <= i < |months| && MonthParts(months)[i] == p;
    assert months[i] in months;
    MonthPartIsMade(months[i]);
  }

  /** Whatever names it was built from and however its statement fares, the dropping step
      keeps a table sound, every partition from its cutoff on, and every row as late. */
  lemma AnyDropIsSound(t: Table, names: seq<string>, now: Clock, fault: Fault)
    requires TableSound(t)
    ensures var t' := DropOutcome(t, names, now, fault);
      && TableSound(t') && t'.partitioned == t.partitioned && (fault.NotExecuted? ==> t' == t)
      && (forall p | p in t'.parts :: p in t.parts)
      && (forall p | p in t.parts && MonthIn(p) >= Cutoff(now).month :: p in t'.parts)
  {
    hide Cutoff, MonthIn, WellMade, IsExpired, ExpiredNames, AllListed;
    var expired := ExpiredNames(names, Cutoff(now));
    PartsOutsideStay(t, names, now);
    if t.partitioned {
      PartsOutsideWellMade(t.parts, expired);
    }
  }

  lemma PartsOutsideStay(t: Table, names: seq<string>, now: Clock)
    requires TableSound(t)
    ensures forall p | p in PartsOutside(t.parts, ExpiredNames(names, Cutoff(now))) :: p in t.parts
    ensures forall p | p in t.parts && MonthIn(p) >= Cutoff(now).month ::
      p in PartsOutside(t.parts, ExpiredNames(names, Cutoff(now)))
  {
    hide Cutoff, MonthIn, Made, IsExpired;
    var expired := ExpiredNames(names, Cutoff(now));
    CutoffIsInThePast(now);
    forall p ensures p in PartsOutside(t.parts, expired) <==> p in t.parts && p.name !in expired {
      PartsOutsideMember(t.parts, expired, p);
    }
    forall p | p in t.parts && MonthIn(p) >= Cutoff(now).month ensures p.name !in expired {
      ExpiredNamesMember(names, Cutoff(now), p.name);
      assert Made(p);
      ExpiredIffEarlier(p, Cutoff(now).month);
    }
  }

  lemma AnyDropConserves(t: Table, names: seq<string>, now: Clock, fault: Fault, row: int)
    requires TableSound(t) && row >= Millis(Cutoff(now))
    ensures multiset(DropOutcome(t, names, now, fault).rows)[row] == multiset(t.rows)[row]
  {
    hide Cutoff, WellMade, ExpiredNames, Millis, StoredIn, AllListed;
    CutoffIsInThePast(now);
    var expired := ExpiredNames(names, Cutoff(now));
    if t.partitioned {
      if StoredIn(t.parts, expired, row) {
        ExpiredRowsAreOld(t, names, Cutoff(now).month, row);
      }
      RowsOutsideCount(t.parts, expired, t.rows, row);
    }
  }

  lemma StepIsSound(s: State, a: Action)
    requires Sound(s)
    ensures Sound(Step(s, a))
  {
    hide EnsureOutcome, DropOutcome, ListNames, WellMade, Millis, TableSound;
    SoundIgnoresRows(s.table, if a.LogRow? then s.table.rows + [a.row] else []);
    if !a.Tick? && !a.LogRow? && a.inst < |s.insts| {
      match (a, s.insts[a.inst])
      case (Ensure(_, fault), Adding(names, now)) =>
        AnyEnsureIsSound(s.table, names, now, fault);
        EnsureHoldsNoDate(s.table, names, now.month, fault);
      case (DropExpired(_, fault), ListedAgain(names, now)) => AnyDropIsSound(s.table, names, now, fault);
      case _ =>
    }
  }

  lemma EnsureHoldsNoDate(t: Table, names: seq<string>, n: nat, fault: Fault)
    ensures var phase := EnsureOutcome(t, names, n, fault).1; phase == Ensured || phase == Leaving(true)
  {
  }

  lemma SoundIgnoresRows(t: Table, rows: seq<int>)
    requires TableSound(t)
    ensures TableSound(t.(rows := rows))
  {
  }

  lemma {:induction false} ExecIsSound(s: State, actions: seq<Action>)
    requires Sound(s)
    ensures Sound(Exec(s, actions))
    decreases |actions|
  {
    hide Sound, Step;
    if actions != [] {
      StepIsSound(s, actions[0]);
      ExecIsSound(Step(s, actions[0]), actions[1..]);
    }
  }

  // ---------------------------------------------------------------- the rows of every run

  /** How often a row is logged by the actions. */
  function TimesLogged(actions: seq<Action>, row: int): nat {
    if actions == [] then 0
    else (if actions[0] == LogRow(row) then 1 else 0) + TimesLogged(actions[1..], row)
  }

  lemma StepConserves(s: State, a: Action, row: int)
    requires Sound(s) && row >= Millis(Cutoff(s.clock))
    ensures multiset(Step(s, a).table.rows)[row] ==
            multiset(s.table.rows)[row] + (if a == LogRow(row) then 1 else 0)
  {
    hide EnsureOutcome, DropOutcome, ListNames, Cutoff, WellMade, Millis, TableSound;
    if !a.Tick? && !a.LogRow? && a.inst < |s.insts| {
      match (a, s.insts[a.inst])
      case (Ensure(_, fault), Adding(names, now)) => AnyEnsureIsSound(s.table, names, now, fault);
      case (DropExpired(_, fault), ListedAgain(names, now)) =>
        assert HeldDate(s.insts[a.inst]) == Some(now);
        EarlierCutoff(now, s.clock);
        AnyDropConserves(s.table, names, now, fault, row);
      case _ =>
    }
  }

  /** Over every run, also one in which the lock fails to exclude and statements are built from
      stale names, no row at or after the last cutoff is lost or duplicated: it is stored as
      often as at the start plus as often as it was logged. */
  lemma {:induction false} RetainedRowsAreConserved(s: State, actions: seq<Action>, row: int)
    requires Sound(s) && row >= Millis(Cutoff(Exec(s, actions).clock))
    ensures multiset(Exec(s, actions).table.rows)[row] == multiset(s.table.rows)[row] + TimesLogged(actions, row)
    decreases |actions|
  {
    hide Step, Cutoff, Millis, Sound;
    if actions != [] {
      ClockAdvances(s, actions);
      EarlierCutoff(s.clock, Exec(s, actions).clock);
      StepIsSound(s, actions[0]);
      StepConserves(s, actions[0], row);
      RetainedRowsAreConserved(Step(s, actions[0]), actions[1..], row);
    }
  }

  // ---------------------------------------------------------------- what the lock adds

  ghost predicate PhaseOk(t: Table, phase: Phase) {
    match phase
    case Listed(names) => names == ListNames(t)
    case Adding(names, now) => names == ListNames(t) && TableOk(t, now.month)
    case Ensured => t.partitioned
    case Dropping(_) => t.partitioned
    case ListedAgain(names, _) => t.partitioned && names == ListNames(t)
    case _ => true
  }

  ghost predicate LockOk(s: State) {
    forall i | 0 <= i < |s.insts| && s.insts[i] != Outside :: s.lock.Some? && s.lock.value.inst == i
  }

  ghost predicate PhasesOk(s: State) {
    forall i | 0 <= i < |s.insts| :: PhaseOk(s.table, s.insts[i])
  }

  ghost predicate SysOk(s: State) {
    TableOk(s.table, s.clock.month) && LockOk(s) && PhasesOk(s) && HeldAreRead(s)
  }

  /** No connection that holds the lock is closed while its instance is inside. */
  predicate KeepsConnection(s: State, a: Action) {
    a.CloseConnection? && a.inst < |s.insts| && Holds(s.lock, a.inst, a.conn) ==> s.insts[a.inst] == Outside
  }

  predicate KeepsConnections(s: State, actions: seq<Action>)
    decreases |actions|
  {
    actions == [] || (KeepsConnection(s, actions[0]) && KeepsConnections(Step(s, actions[0]), actions[1..]))
  }

  lemma SysIsSound(s: State)
    requires SysOk(s)
    ensures Sound(s)
  {
    hide WellMade, NoHole, PhasesOk;
  }

  /** A later current month needs less of the table. */
  lemma TableOkLater(t: Table, n: int, later: int)
    requires TableOk(t, n) && n <= later
    ensures TableOk(t, later)
  {
  }

  /** What the adding step does to a table without holes whose names were just listed. */
  lemma EnsureKeeps(t: Table, n: nat, fault: Fault)
    requires TableOk(t, n) && InRange(n) && InRange(n + AHEAD + 1)
    ensures var (t', phase) := EnsureOutcome(t, ListNames(t), n, fault);
      && TableOk(t', n) && t'.rows == t.rows
      && (phase == Leaving(true) || (phase == Ensured && t'.partitioned))
      && (!fault.NotExecuted? ==> t'.partitioned && WindowCovered(t'.parts, n))
      && (fault == NoFault ==> phase == Ensured)
    ensures EnsureStatement(t, ListNames(t), n).Altered?
  {
    hide MonthParts, WindowClauses, Reorganize, PartitionBy, WellMade, NoHole, MissingMonths;
    if t.partitioned {
      assert ListNames(t)[|t.parts|] == "pmax";
      FillingIsLegal(t, n);
      FillingCovers(t, n);
      var months := MissingMonths(n, ListNames(t), n);
      if months == [] {
        assert t.parts + MonthParts([]) == t.parts;
      }
    } else {
      FirstPartitioning(t, n);
    }
  }

  /** What the dropping step does to a table without holes whose names were just listed. */
  lemma DropKeeps(t: Table, n: int, now: Clock, fault: Fault)
    requires t.partitioned && TableOk(t, n) && now.month <= n
    ensures TableOk(DropOutcome(t, ListNames(t), now, fault), n)
    ensures DropOutcome(t, ListNames(t), now, fault).partitioned
    ensures DropPartitions(t, ExpiredNames(ListNames(t), Cutoff(now))).Altered?
    ensures forall m | m >= Cutoff(now).month ::
      HasMonth(t.parts, m) <==> HasMonth(DropOutcome(t, ListNames(t), now, fault).parts, m)
    ensures !fault.NotExecuted? ==>
      forall p | p in DropOutcome(t, ListNames(t), now, fault).parts :: MonthIn(p) >= Cutoff(now).month
    ensures "pmax" !in ExpiredNames(ListNames(t), Cutoff(now))
  {
    hide Cutoff, WellMade, NoHole, HasMonth, IsExpired, ListNames, MonthIn;
    CutoffIsInThePast(now);
    var names := ExpiredNames(ListNames(t), Cutoff(now));
    DroppingExpired(t, Cutoff(now).month, n);
    ExpiredNamesMember(ListNames(t), Cutoff(now), "pmax");
    NotExpired(Cutoff(now));
    if names == [] {
      forall p | p in t.parts ensures MonthIn(p) >= Cutoff(now).month {
        PartsOutsideMember(t.parts, names, p);
      }
    }
  }

  lemma NotExpired(cutoff: Date)
    ensures !IsExpired("pmax", cutoff)
  {
  }

  /** While one instance is inside, no other is. */
  lemma OnlyOneInside(s: State, i: nat, j: nat)
    requires LockOk(s) && i < |s.insts| && j < |s.insts|
    requires s.insts[i] != Outside && s.insts[j] != Outside
    ensures i == j
  {
  }

  lemma OthersAreOutside(s: State, i: nat)
    requires LockOk(s) && i < |s.insts| && s.insts[i] != Outside
    ensures forall j: nat | j < |s.insts| && j != i :: s.insts[j] == Outside
  {
  }

  /** The instance that is inside may alter the table: nobody else has read it. */
  lemma InsideAlters(s: State, i: nat, table: Table, phase: Phase)
    requires SysOk(s) && i < |s.insts| && s.insts[i] != Outside
    requires TableOk(table, s.clock.month) && PhaseOk(table, phase)
    requires HeldDate(phase).Some? ==> Millis(HeldDate(phase).value) <= Millis(s.clock)
    ensures SysOk(s.(table := table, insts := s.insts[i := phase]))
  {
    hide TableOk, Millis;
    var s' := s.(table := table, insts := s.insts[i := phase]);
    OthersAreOutside(s, i);
    assert forall j: nat | j < |s'.insts| :: PhaseOk(s'.table, s'.insts[j]);
  }

  lemma EnsureStepKeeps(s: State, i: nat, fault: Fault)
    requires SysOk(s) && i < |s.insts| && s.insts[i].Adding?
    ensures SysOk(StepInstance(s, Ensure(i, fault)))
  {
    hide TableOk, EnsureOutcome, ListNames, EnsureStatement, Millis, LockOk, HeldAreRead;
    var Adding(names, now) := s.insts[i];
    assert PhaseOk(s.table, s.insts[i]);
    EnsureKeeps(s.table, now.month, fault);
    EnsureHoldsNoDate(s.table, names, now.month, fault);
    var (table, phase) := EnsureOutcome(s.table, names, now.month, fault);
    HeldIsNotLater(s, i);
    TableOkLater(table, now.month, s.clock.month);
    InsideAlters(s, i, table, phase);
  }

  lemma HeldIsNotLater(s: State, i: nat)
    requires HeldAreRead(s) && i < |s.insts| && HeldDate(s.insts[i]).Some?
    ensures HeldDate(s.insts[i]).value.month <= s.clock.month
    ensures Millis(HeldDate(s.insts[i]).value) <= Millis(s.clock)
  {
    hide Millis;
    DateOrder(HeldDate(s.insts[i]).value, s.clock);
  }

  lemma DropStepKeeps(s: State, i: nat, fault: Fault)
    requires SysOk(s) && i < |s.insts| && s.insts[i].ListedAgain?
    ensures SysOk(StepInstance(s, DropExpired(i, fault)))
  {
    hide TableOk, DropOutcome, ListNames, DropPartitions, Cutoff, Millis, LockOk, HeldAreRead;
    var ListedAgain(names, now) := s.insts[i];
    assert PhaseOk(s.table, s.insts[i]);
    HeldIsNotLater(s, i);
    DropKeeps(s.table, s.clock.month, now, fault);
    InsideAlters(s, i, DropOutcome(s.table, names, now, fault), Leaving(false));
  }

  lemma InstanceStepKeeps(s: State, a: Action)
    requires SysOk(s) && !a.Tick? && !a.LogRow? && a.inst < |s.insts| && KeepsConnection(s, a)
    ensures SysOk(StepInstance(s, a))
  {
    hide TableOk, EnsureOutcome, DropOutcome, ListNames, Cutoff, Millis;
    var i := a.inst;
    assert PhaseOk(s.table, s.insts[i]);
    match (a, s.insts[i]) {
      case (Ensure(_, fault), Adding(_, _)) => EnsureStepKeeps(s, i, fault);
      case (DropExpired(_, fault), ListedAgain(_, _)) => DropStepKeeps(s, i, fault);
      case (ListPartitions(_), Locked) => InsideAlters(s, i, s.table, Listed(ListNames(s.table)));
      case (ListPartitions(_), Dropping(now)) =>
        HeldIsNotLater(s, i);
        InsideAlters(s, i, s.table, ListedAgain(ListNames(s.table), now));
      case (ReadClock(_), Listed(names)) => InsideAlters(s, i, s.table, Adding(names, s.clock));
      case (ReadClock(_), Ensured) => InsideAlters(s, i, s.table, Dropping(s.clock));
      case (Abort(_), Locked) => InsideAlters(s, i, s.table, Leaving(true));
      case (Abort(_), Dropping(_)) => InsideAlters(s, i, s.table, Leaving(true));
      case (Acquire(_, conn), Outside) =>
        if Holds(AfterAcquire(s.lock, i, conn), i, conn) { AcquireKeeps(s, i, conn); }
      case (Release(_, conn), Leaving(_)) => LeavingKeeps(s, i, AfterRelease(s.lock, i, conn));
      case (CloseConnection(_, conn), _) => CloseKeeps(s, i, conn);
      case (Crash(_), _) => CrashKeeps(s, i);
      case _ =>
    }
  }

  lemma AcquireKeeps(s: State, i: nat, conn: nat)
    requires SysOk(s) && i < |s.insts| && s.insts[i] == Outside && Holds(AfterAcquire(s.lock, i, conn), i, conn)
    ensures SysOk(s.(lock := AfterAcquire(s.lock, i, conn), insts := s.insts[i := Locked]))
  {
    hide TableOk, ListNames, Millis;
  }

  lemma LeavingKeeps(s: State, i: nat, lock: Option<Holder>)
    requires SysOk(s) && i < |s.insts| && s.insts[i] != Outside
    ensures SysOk(s.(lock := lock, insts := s.insts[i := Outside]))
  {
    hide TableOk, ListNames, Millis;
    OthersAreOutside(s, i);
  }

  lemma CloseKeeps(s: State, i: nat, conn: nat)
    requires SysOk(s) && i < |s.insts| && KeepsConnection(s, CloseConnection(i, conn))
    ensures SysOk(StepInstance(s, CloseConnection(i, conn)))
  {
    hide TableOk, ListNames, Millis;
  }

  lemma CrashKeeps(s: State, i: nat)
    requires SysOk(s) && i < |s.insts|
    ensures SysOk(StepInstance(s, Crash(i)))
  {
    hide TableOk, ListNames, Millis;
  }

  lemma StepKeeps(s: State, a: Action)
    requires SysOk(s) && KeepsConnection(s, a)
    ensures SysOk(Step(s, a))
  {
    hide StepInstance, ListNames, WellMade, NoHole, Millis, TableOk;
    match a {
      case Tick(to) =>
        if Millis(s.clock) <= Millis(to) {
          DateOrder(s.clock, to);
          TableOkLater(s.table, s.clock.month, to.month);
        }
      case LogRow(row) =>
        var t' := s.table.(rows := s.table.rows + [row]);
        TableOkIgnoresRows(s.table, t'.rows, s.clock.month);
        forall i | 0 <= i < |s.insts| ensures PhaseOk(t', s.insts[i]) {
          assert PhaseOk(s.table, s.insts[i]);
          ListNamesIgnoreRows(s.table, t'.rows);
          if s.insts[i].Adding? { TableOkIgnoresRows(s.table, t'.rows, s.insts[i].now.month); }
        }
      case _ => if a.inst < |s.insts| { InstanceStepKeeps(s, a); }
    }
  }

  lemma ListNamesIgnoreRows(t: Table, rows: seq<int>)
    ensures ListNames(t.(rows := rows)) == ListNames(t)
  {
  }

  lemma TableOkIgnoresRows(t: Table, rows: seq<int>, n: int)
    requires TableOk(t, n)
    ensures TableOk(t.(rows := rows), n)
  {
  }

  /** While no connection that owns the lock is closed inside, every run keeps the invariant. */
  lemma {:induction false} ExecKeeps(s: State, actions: seq<Action>)
    requires SysOk(s) && KeepsConnections(s, actions)
    ensures SysOk(Exec(s, actions))
    decreases |actions|
  {
    hide SysOk, KeepsConnection, Step;
    if actions != [] {
      StepKeeps(s, actions[0]);
      ExecKeeps(Step(s, actions[0]), actions[1..]);
    }
  }

  /** Any number of instances, all outside, over a table without holes. */
  ghost predicate IsStart(s: State) {
    && TableOk(s.table, s.clock.month) && s.lock == None
    && forall i | 0 <= i < |s.insts| :: s.insts[i] == Outside
  }

  lemma StartIsOk(s: State)
    requires IsStart(s)
    ensures SysOk(s)
  {
    hide TableOk;
  }
}
