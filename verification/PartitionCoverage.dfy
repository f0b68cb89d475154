/**
 What a maintenance run achieves and for how long it lasts, whatever is interleaved: the
 window stays covered, old rows stay in the lowest partition, and until the date asks for
 more no further statement is issued.
 */
module PartitionCoverage {
  import opened Optional
  import opened Calendar
  import opened PartitionNames
  import opened PartitionTable
  import opened PartitionPlan
  import opened PartitionInvariant
  import opened PartitionRuns

  // ---------------------------------------------------------------- coverage lasts

  /** The names an instance will build its adding statement from. */
  function HeldNames(phase: Phase): Option<seq<string>> {
    match phase
    case Listed(names) => Some(names)
    case Adding(names, _) => Some(names)
    case _ => None
  }

  /** The table is partitioned, and no instance still takes it for not partitioned. */
  ghost predicate KnownPartitioned(s: State) {
    s.table.partitioned && forall i | 0 <= i < |s.insts| :: HeldNames(s.insts[i]) != Some([])
  }

  lemma ListNamesIsNotEmpty(t: Table)
    requires t.partitioned
    ensures ListNames(t) != []
  {
  }

  /** While exclusion holds, nobody takes a partitioned table for one that is not. */
  lemma ExcludedKnowIt(s: State)
    requires SysOk(s) && s.table.partitioned
    ensures KnownPartitioned(s)
  {
    hide ListNames, TableOk, LockOk, HeldAreRead;
    ListNamesIsNotEmpty(s.table);
    forall i | 0 <= i < |s.insts| ensures HeldNames(s.insts[i]) != Some([]) {
      assert PhaseOk(s.table, s.insts[i]);
    }
  }

  lemma MonthStaysInStep(s: State, a: Action, m: int)
    requires Sound(s) && KnownPartitioned(s) && HasMonth(s.table.parts, m) && Cutoff(s.clock).month <= m
    ensures KnownPartitioned(Step(s, a)) && HasMonth(Step(s, a).table.parts, m)
  {
    hide EnsureOutcome, DropOutcome, ListNames, Cutoff, Millis, TableSound, MonthIn;
    ListNamesIsNotEmpty(s.table);
    var p :| p in s.table.parts && MonthIn(p) == m;
    if !a.Tick? && !a.LogRow? && a.inst < |s.insts| {
      match (a, s.insts[a.inst])
      case (Ensure(_, fault), Adding(names, now)) =>
        assert HeldNames(s.insts[a.inst]) != Some([]);
        AnyEnsureIsSound(s.table, names, now, fault);
        EnsureHoldsNoDate(s.table, names, now.month, fault);
        assert p in EnsureOutcome(s.table, names, now.month, fault).0.parts;
      case (DropExpired(_, fault), ListedAgain(names, now)) =>
        assert HeldDate(s.insts[a.inst]) == Some(now);
        EarlierCutoff(now, s.clock);
        AnyDropIsSound(s.table, names, now, fault);
        assert p in DropOutcome(s.table, names, now, fault).parts;
      case _ =>
    }
  }

  /** Once a month has a partition it keeps one until the cutoff passes it, in every run,
      whether or not the lock excludes. */
  lemma {:induction false} MonthsStay(s: State, actions: seq<Action>, m: int)
    requires Sound(s) && KnownPartitioned(s) && HasMonth(s.table.parts, m)
    requires Cutoff(Exec(s, actions).clock).month <= m
    ensures HasMonth(Exec(s, actions).table.parts, m) && KnownPartitioned(Exec(s, actions))
    decreases |actions|
  {
    hide Step, Cutoff, Millis, Sound, KnownPartitioned, HasMonth;
    if actions != [] {
      ClockAdvances(s, actions);
      EarlierCutoff(s.clock, Exec(s, actions).clock);
      StepIsSound(s, actions[0]);
      MonthStaysInStep(s, actions[0], m);
      MonthsStay(Step(s, actions[0]), actions[1..], m);
    }
  }

  /** The condition is needed: an instance that still takes the table for unpartitioned
      partitions it anew, and no earlier month keeps a partition. */
  lemma StaleFirstPartitioningForgetsMonths(s: State, i: nat, m: int)
    requires Sound(s) && i < |s.insts| && s.insts[i].Adding? && s.insts[i].names == [] && m < s.insts[i].now.month
    ensures !HasMonth(Step(s, Ensure(i, NoFault)).table.parts, m)
  {
    hide EnsureStatement, MissingMonths, MonthParts, MonthIn, WellMade, HeldAreRead;
    var now := s.insts[i].now;
    var months := MissingMonths(now.month, [], now.month);
    AnyEnsureStatement(s.table, [], now);
    WindowMonthsInRange(now, []);
    forall p | p in MonthParts(months) ensures MonthIn(p) != m {
      MonthPartsAreOfMonths(months, p);
    }
  }

  /** No row up to the end of month `m` falls in `pmax`. */
  ghost predicate NoneInPmax(parts: seq<Part>, m: int) {
    forall row | row < Millis(FirstOf(m + 1)) :: Locate(parts, DayOf(row)) < |parts|
  }

  lemma NoneInPmaxUpTo(s: State, m: int)
    requires Sound(s) && s.table.partitioned && HasMonth(s.table.parts, m)
    ensures NoneInPmax(s.table.parts, m)
  {
    hide HasMonth, Millis, WellMade, HeldAreRead;
    forall row | row < Millis(FirstOf(m + 1)) ensures Locate(s.table.parts, DayOf(row)) < |s.table.parts| {
      RowsAvoidPmax(s.table.parts, m, row);
    }
  }

  /** A covered window stays covered in every continuation until the cutoff passes its first
      month, and no row up to its end falls in `pmax` until the cutoff passes its last. */
  lemma CoverageLasts(s: State, actions: seq<Action>, n: int)
    requires Sound(s) && KnownPartitioned(s) && WindowCovered(s.table.parts, n)
    ensures Cutoff(Exec(s, actions).clock).month <= n ==> WindowCovered(Exec(s, actions).table.parts, n)
    ensures Cutoff(Exec(s, actions).clock).month <= n + 3 ==> NoneInPmax(Exec(s, actions).table.parts, n + 3)
  {
    hide Exec, Cutoff, Sound, KnownPartitioned, HasMonth, NoneInPmax;
    var r := Exec(s, actions);
    forall m | n <= m <= n + AHEAD && Cutoff(r.clock).month <= m ensures HasMonth(r.table.parts, m) {
      MonthsStay(s, actions, m);
    }
    if Cutoff(r.clock).month <= n + AHEAD {
      MonthsStay(s, actions, n + AHEAD);
      ExecIsSound(s, actions);
      IsPartitioned(r);
      NoneInPmaxUpTo(r, n + AHEAD);
    }
  }

  lemma IsPartitioned(s: State)
    requires KnownPartitioned(s)
    ensures s.table.partitioned
  {
  }

  /** The state after an instance's adding statement took effect, its reply lost or not. */
  lemma AfterAdding(s: State, i: nat, fault: Fault)
    requires SysOk(s) && i < |s.insts| && s.insts[i].Adding? && !fault.NotExecuted?
    ensures var s' := Step(s, Ensure(i, fault));
      SysOk(s') && s'.table.partitioned && WindowCovered(s'.table.parts, s.insts[i].now.month)
  {
    hide EnsureOutcome, EnsureStatement, ListNames, TableOk, LockOk, HeldAreRead, Millis, HasMonth;
    assert PhaseOk(s.table, s.insts[i]);
    EnsureKeeps(s.table, s.insts[i].now.month, fault);
    assert SysOk(Step(s, Ensure(i, fault))) by {
      StepKeeps(s, Ensure(i, fault));
    }
  }

  /** After an adding statement that took effect for month `n`, in every continuation, until
      the cutoff passes month `n + 3` no row up to its end falls in `pmax`. */
  lemma AddingCoversTheWindow(s: State, i: nat, fault: Fault, actions: seq<Action>)
    requires SysOk(s) && i < |s.insts| && s.insts[i].Adding? && !fault.NotExecuted?
    ensures var n := s.insts[i].now.month;
      var r := Exec(Step(s, Ensure(i, fault)), actions);
      && (Cutoff(r.clock).month <= n ==> WindowCovered(r.table.parts, n))
      && (Cutoff(r.clock).month <= n + 3 ==> NoneInPmax(r.table.parts, n + 3))
  {
    hide Exec, Step, SysOk, Cutoff, WindowCovered, NoneInPmax;
    AfterAdding(s, i, fault);
    var s' := Step(s, Ensure(i, fault));
    SysIsSound(s');
    ExcludedKnowIt(s');
    CoverageLasts(s', actions, s.insts[i].now.month);
  }

  // ---------------------------------------------------------------- old rows stay lowest

  ghost predicate PartsFrom(parts: seq<Part>, c: int) {
    forall p | p in parts :: MonthIn(p) >= c
  }

  /** Nothing is of a month before `c`: no partition, no clock reading held, nor the clock. */
  ghost predicate NothingBefore(s: State, c: int) {
    && PartsFrom(s.table.parts, c) && s.clock.month >= c
    && forall i | 0 <= i < |s.insts| && HeldDate(s.insts[i]).Some? :: HeldDate(s.insts[i]).value.month >= c
  }

  lemma NothingBeforeStep(s: State, a: Action, c: int)
    requires Sound(s) && NothingBefore(s, c)
    ensures NothingBefore(Step(s, a), c)
  {
    hide EnsureOutcome, DropOutcome, ListNames, Cutoff, Millis, TableSound, MonthIn;
    StepKeepsClock(s, a);
    DateOrder(s.clock, Step(s, a).clock);
    if !a.Tick? && !a.LogRow? && a.inst < |s.insts| {
      match (a, s.insts[a.inst])
      case (Ensure(_, fault), Adding(names, now)) =>
        assert HeldDate(s.insts[a.inst]) == Some(now);
        AnyEnsureIsSound(s.table, names, now, fault);
        EnsureHoldsNoDate(s.table, names, now.month, fault);
      case (DropExpired(_, fault), ListedAgain(names, now)) => AnyDropIsSound(s.table, names, now, fault);
      case _ =>
    }
  }

  lemma {:induction false} NothingBeforeStays(s: State, actions: seq<Action>, c: int)
    requires Sound(s) && NothingBefore(s, c)
    ensures NothingBefore(Exec(s, actions), c)
    decreases |actions|
  {
    hide Step, Sound, NothingBefore;
    if actions != [] {
      StepIsSound(s, actions[0]);
      NothingBeforeStep(s, actions[0], c);
      NothingBeforeStays(Step(s, actions[0]), actions[1..], c);
    }
  }

  /** Every row created before month `c` lies in the lowest partition. */
  ghost predicate OldAreLowest(parts: seq<Part>, c: int) {
    forall row | row < Millis(FirstOf(c)) :: Locate(parts, DayOf(row)) == 0
  }

  lemma OldAreLowestIn(s: State, c: int)
    requires Sound(s) && PartsFrom(s.table.parts, c)
    ensures OldAreLowest(s.table.parts, c)
  {
    hide MonthIn, Millis, HeldAreRead, Made;
    forall row | row < Millis(FirstOf(c)) ensures Locate(s.table.parts, DayOf(row)) == 0 {
      OldRowsAreInTheLowest(s.table.parts, c, row);
    }
  }

  lemma AfterDropping(s: State, i: nat, fault: Fault)
    requires SysOk(s) && i < |s.insts| && s.insts[i].ListedAgain? && !fault.NotExecuted?
    ensures var s' := Step(s, DropExpired(i, fault));
      && SysOk(s') && s'.table.partitioned && i < |s'.insts| && s'.insts[i] == Leaving(false)
      && NothingBefore(s', Cutoff(s.insts[i].now).month)
      && (forall m | m >= Cutoff(s.insts[i].now).month ::
            HasMonth(s.table.parts, m) ==> HasMonth(s'.table.parts, m))
  {
    hide DropOutcome, ListNames, TableOk, LockOk, Millis, HasMonth, Cutoff, MonthIn, DropPartitions;
    var ListedAgain(names, now) := s.insts[i];
    var s' := Step(s, DropExpired(i, fault));
    assert PhaseOk(s.table, s.insts[i]);
    HeldIsNotLater(s, i);
    CutoffIsInThePast(now);
    DropKeeps(s.table, s.clock.month, now, fault);
    assert SysOk(s') by {
      StepKeeps(s, DropExpired(i, fault));
    }
    OthersAreOutside(s', i);
    assert forall j: nat | j < |s'.insts| :: HeldDate(s'.insts[j]) == None;
  }

  /** After a drop that took effect, in every continuation every row older than its cutoff that
      is still stored lies in the lowest partition. */
  lemma DroppingLeavesOldRowsLowest(s: State, i: nat, fault: Fault, actions: seq<Action>)
    requires SysOk(s) && i < |s.insts| && s.insts[i].ListedAgain? && !fault.NotExecuted?
    ensures OldAreLowest(Exec(Step(s, DropExpired(i, fault)), actions).table.parts, Cutoff(s.insts[i].now).month)
  {
    hide Exec, Step, SysOk, Cutoff, OldAreLowest, HasMonth, PartsFrom;
    var c := Cutoff(s.insts[i].now).month;
    var s' := Step(s, DropExpired(i, fault));
    AfterDropping(s, i, fault);
    SysIsSound(s');
    NothingBeforeStays(s', actions, c);
    ExecIsSound(s', actions);
    OldAreLowestIn(Exec(s', actions), c);
  }

  // ---------------------------------------------------------------- no second statement

  /** The step sends a statement to the server. */
  predicate IssuesStatement(s: State, a: Action) {
    (a.Ensure? || a.DropExpired?) && a.inst < |s.insts| &&
    match (a, s.insts[a.inst])
    case (Ensure(_, _), Adding(names, now)) => IssuesEnsure(names, now.month)
    case (DropExpired(_, _), ListedAgain(names, now)) => ExpiredNames(names, Cutoff(now)) != []
    case _ => false
  }

  function StatementsIssued(s: State, actions: seq<Action>): nat
    decreases |actions|
  {
    if actions == [] then 0
    else (if IssuesStatement(s, actions[0]) then 1 else 0) + StatementsIssued(Step(s, actions[0]), actions[1..])
  }

  /** What an instance has read asks for nothing more in month `n` with cutoff month `c`. */
  ghost predicate ReadsSettled(t: Table, phase: Phase, n: int, c: int) {
    match phase
    case Listed(names) => names == ListNames(t)
    case Adding(names, now) => names == ListNames(t) && now.month == n
    case Dropping(now) => Cutoff(now).month == c
    case ListedAgain(names, now) => names == ListNames(t) && Cutoff(now).month == c
    case _ => true
  }

  ghost predicate DateIs(s: State, n: int, c: int) {
    s.clock.month == n && Cutoff(s.clock).month == c
  }

  /** The table is what month `n` with cutoff month `c` asks for, and everyone has read it so. */
  ghost predicate Settled(s: State, n: int, c: int) {
    && s.table.partitioned && WellMade(s.table.parts) && WindowCovered(s.table.parts, n) && PartsFrom(s.table.parts, c)
    && DateIs(s, n, c)
    && forall i | 0 <= i < |s.insts| :: ReadsSettled(s.table, s.insts[i], n, c)
  }

  lemma CoveredWindowMissesNothing(t: Table, n: nat)
    requires t.partitioned && WellMade(t.parts) && WindowCovered(t.parts, n) && InRange(n) && InRange(n + AHEAD + 1)
    ensures !IssuesEnsure(ListNames(t), n)
  {
    hide PartitionName, ListNames, WellMade, HasMonth;
    var months := MissingMonths(n, ListNames(t), n);
    if months != [] {
      MissingMonthsMember(n, ListNames(t), n, months[0]);
      ListedIffHasMonth(t, months[0]);
    }
    ListNamesIsNotEmpty(t);
  }

  lemma NothingExpired(t: Table, c: int)
    requires t.partitioned && WellMade(t.parts) && PartsFrom(t.parts, c)
    ensures ExpiredNames(ListNames(t), FirstOf(c)) == []
  {
    hide PartitionName, MonthIn, IsExpired;
    var expired := ExpiredNames(ListNames(t), FirstOf(c));
    if expired != [] {
      var name := expired[0];
      ExpiredNamesMember(ListNames(t), FirstOf(c), name);
      NotExpired(FirstOf(c));
      var i :| 0 <= i < |t.parts| && t.parts[i].name == name;
      assert t.parts[i] in t.parts && Made(t.parts[i]);
      ExpiredIffEarlier(t.parts[i], c);
    }
  }

  lemma SettledIssuesNothing(s: State, a: Action, n: int, c: int)
    requires Settled(s, n, c)
    ensures !IssuesStatement(s, a)
  {
    hide ListNames, WellMade, WindowCovered, PartsFrom, Cutoff, IssuesEnsure;
    if (a.Ensure? || a.DropExpired?) && a.inst < |s.insts| {
      assert ReadsSettled(s.table, s.insts[a.inst], n, c);
      CoveredWindowMissesNothing(s.table, n);
      NothingExpired(s.table, c);
      if s.insts[a.inst].ListedAgain? { CutoffIsInThePast(s.insts[a.inst].now); }
    }
  }

  lemma SettledStep(s: State, a: Action, n: int, c: int)
    requires Settled(s, n, c) && DateIs(Step(s, a), n, c)
    ensures Settled(Step(s, a), n, c) && Step(s, a).table.parts == s.table.parts
  {
    hide ListNames, WellMade, WindowCovered, PartsFrom, Cutoff, Millis, EnsureStatement, DropPartitions, IssuesEnsure;
    SettledIssuesNothing(s, a, n, c);
    ListNamesIgnoreRows(s.table, if a.LogRow? then s.table.rows + [a.row] else []);
  }

  lemma DateStays(s: State, a: Action, rest: seq<Action>, n: int, c: int)
    requires DateIs(s, n, c) && DateIs(Exec(Step(s, a), rest), n, c)
    ensures DateIs(Step(s, a), n, c)
  {
    hide Step, Exec, Cutoff, Millis;
    var s' := Step(s, a);
    StepKeepsClock(s, a);
    ClockAdvances(s', rest);
    DateOrder(s.clock, s'.clock);
    DateOrder(s'.clock, Exec(s', rest).clock);
    EarlierCutoff(s.clock, s'.clock);
    EarlierCutoff(s'.clock, Exec(s', rest).clock);
  }

  /** From a settled state, in every run within the same month and cutoff, with any number of
      maintenance runs by any instances, no statement is issued and no partition changes. */
  lemma {:induction false} SettledRunsIssueNothing(s: State, actions: seq<Action>, n: int, c: int)
    requires Settled(s, n, c) && DateIs(Exec(s, actions), n, c)
    ensures StatementsIssued(s, actions) == 0
    ensures Settled(Exec(s, actions), n, c) && Exec(s, actions).table.parts == s.table.parts
    decreases |actions|
  {
    hide Step, Settled, DateIs, IssuesStatement;
    if actions != [] {
      DateOfSettled(s, n, c);
      DateStays(s, actions[0], actions[1..], n, c);
      SettledIssuesNothing(s, actions[0], n, c);
      SettledStep(s, actions[0], n, c);
      SettledRunsIssueNothing(Step(s, actions[0]), actions[1..], n, c);
    }
  }

  lemma DateOfSettled(s: State, n: int, c: int)
    requires Settled(s, n, c)
    ensures DateIs(s, n, c)
  {
  }

  /** A run that filled the window in this month and then dropped what expired settles the
      table, whatever happened between its statements, as long as exclusion held. */
  lemma SuccessfulRunSettles(s: State, i: nat, adding: Fault, between: seq<Action>, dropping: Fault)
    requires SysOk(s) && i < |s.insts| && s.insts[i].Adding? && !adding.NotExecuted? && !dropping.NotExecuted?
    requires KeepsConnections(Step(s, Ensure(i, adding)), between)
    requires var s2 := Exec(Step(s, Ensure(i, adding)), between);
      && i < |s2.insts| && s2.insts[i].ListedAgain?
      && DateIs(s2, s.insts[i].now.month, Cutoff(s2.insts[i].now).month)
    ensures var s2 := Exec(Step(s, Ensure(i, adding)), between);
      Settled(Step(s2, DropExpired(i, dropping)), s.insts[i].now.month, Cutoff(s2.insts[i].now).month)
  {
    hide Exec, Step, SysOk, Cutoff, HasMonth, PartsFrom, NoneInPmax;
    var n := s.insts[i].now.month;
    var s1 := Step(s, Ensure(i, adding));
    var s2 := Exec(s1, between);
    AfterAdding(s, i, adding);
    ExecKeeps(s1, between);
    CutoffIsInThePast(s2.clock);
    AddingCoversTheWindow(s, i, adding, between);
    AfterDropping(s2, i, dropping);
    SettledWhenAlone(s2, i, dropping, n);
  }

  lemma SettledWhenAlone(s2: State, i: nat, dropping: Fault, n: int)
    requires SysOk(s2) && i < |s2.insts| && s2.insts[i].ListedAgain?
    requires DateIs(s2, n, Cutoff(s2.insts[i].now).month) && WindowCovered(s2.table.parts, n)
    requires SysOk(Step(s2, DropExpired(i, dropping))) && Step(s2, DropExpired(i, dropping)).table.partitioned
    requires NothingBefore(Step(s2, DropExpired(i, dropping)), Cutoff(s2.insts[i].now).month)
    requires forall m | m >= Cutoff(s2.insts[i].now).month ::
      HasMonth(s2.table.parts, m) ==> HasMonth(Step(s2, DropExpired(i, dropping)).table.parts, m)
    ensures Settled(Step(s2, DropExpired(i, dropping)), n, Cutoff(s2.insts[i].now).month)
  {
    hide DropOutcome, ListNames, Millis, HasMonth, Cutoff, PartsFrom, NoHole, WellMade, HeldAreRead;
    var s' := Step(s2, DropExpired(i, dropping));
    CutoffIsInThePast(s2.clock);
    assert s'.insts[i] == Leaving(false) && s'.clock == s2.clock;
    OthersAreOutside(s', i);
  }

  // ---------------------------------------------------------------- a whole run among others

  /** The actions are the clock's, the logging requests' and other instances'. */
  predicate OthersOnly(actions: seq<Action>, i: nat) {
    forall a | a in actions :: a.Tick? || a.LogRow? || a.inst != i
  }

  lemma OthersStep(s: State, a: Action, i: nat)
    requires SysOk(s) && i < |s.insts| && s.insts[i] != Outside && OthersOnly([a], i)
    ensures var s' := Step(s, a);
      && KeepsConnection(s, a) && |s'.insts| == |s.insts| && s'.insts[i] == s.insts[i] && s'.lock == s.lock
      && s'.table.partitioned == s.table.partitioned && s'.table.parts == s.table.parts
  {
    hide TableOk, ListNames, EnsureOutcome, DropOutcome, Millis, PhasesOk, HeldAreRead;
    assert a in [a];
    OthersAreOutside(s, i);
  }

  /** While an instance is inside, nothing the others do touches the partitions, the lock or
      how far it is. */
  lemma {:induction false} OthersWait(s: State, actions: seq<Action>, i: nat)
    requires SysOk(s) && i < |s.insts| && s.insts[i] != Outside && OthersOnly(actions, i)
    ensures var s' := Exec(s, actions);
      && SysOk(s') && |s'.insts| == |s.insts| && s'.insts[i] == s.insts[i] && s'.lock == s.lock
      && s'.table.partitioned == s.table.partitioned && s'.table.parts == s.table.parts
    decreases |actions|
  {
    hide Step, SysOk, KeepsConnection;
    if actions != [] {
      var a := actions[0];
      assert a in actions && OthersOnly([a], i) && forall x | x in actions[1..] :: x in actions;
      OthersStep(s, a, i);
      StepKeeps(s, a);
      OthersWait(Step(s, a), actions[1..], i);
    }
  }

  function Turn(s: State, others: seq<Action>, a: Action): State {
    Step(Exec(s, others), a)
  }

  /** An instance locks, lists, reads the clock; others act while it waits for the database. */
  function UpToAdding(s: State, i: nat, conn: nat, others: seq<Action>): State {
    Step(Turn(Step(s, Acquire(i, conn)), others, ListPartitions(i)), ReadClock(i))
  }

  /** It adds, reads the clock again and lists again. */
  function UpToDropping(s: State, i: nat, first: seq<Action>, second: seq<Action>): State {
    Turn(Step(Turn(s, first, Ensure(i, NoFault)), ReadClock(i)), second, ListPartitions(i))
  }

  /** It drops and releases. */
  function ToTheEnd(s: State, i: nat, conn: nat, first: seq<Action>, second: seq<Action>): State {
    Turn(Turn(s, first, DropExpired(i, NoFault)), second, Release(i, conn))
  }

  lemma LocksAndLists(s: State, i: nat, conn: nat, others: seq<Action>)
    requires SysOk(s) && i < |s.insts| && s.insts[i] == Outside && s.lock == None && OthersOnly(others, i)
    ensures var s' := UpToAdding(s, i, conn, others);
      && SysOk(s') && i < |s'.insts| && s'.insts[i].Adding? && s'.lock == Some(Holder(i, conn, 1))
  {
    hide TableOk, ListNames, EnsureOutcome, DropOutcome, Millis, Exec, PhasesOk, HeldAreRead, LockOk;
    StepKeeps(s, Acquire(i, conn));
    var s1 := Step(s, Acquire(i, conn));
    OthersWait(s1, others, i);
    var s2 := Exec(s1, others);
    StepKeeps(s2, ListPartitions(i));
    StepKeeps(Step(s2, ListPartitions(i)), ReadClock(i));
  }

  lemma AddsAndLists(s: State, i: nat, first: seq<Action>, second: seq<Action>)
    requires SysOk(s) && i < |s.insts| && s.insts[i].Adding? && OthersOnly(first, i) && OthersOnly(second, i)
    ensures var s' := UpToDropping(s, i, first, second);
      && SysOk(s') && i < |s'.insts| && s'.insts[i].ListedAgain? && s'.lock == s.lock
      && WindowCovered(s'.table.parts, s.insts[i].now.month)
  {
    hide TableOk, ListNames, EnsureOutcome, DropOutcome, Millis, Exec, PhasesOk, HeldAreRead, LockOk, WindowCovered;
    OthersWait(s, first, i);
    var s1 := Exec(s, first);
    AfterAdding(s1, i, NoFault);
    EnsureSucceeds(s1, i);
    var s2 := Step(s1, Ensure(i, NoFault));
    var s3 := Step(s2, ReadClock(i));
    StepKeeps(s2, ReadClock(i));
    OthersWait(s3, second, i);
    StepKeeps(Exec(s3, second), ListPartitions(i));
  }

  lemma EnsureSucceeds(s: State, i: nat)
    requires SysOk(s) && i < |s.insts| && s.insts[i].Adding?
    ensures Step(s, Ensure(i, NoFault)).insts[i] == Ensured && Step(s, Ensure(i, NoFault)).lock == s.lock
  {
    hide EnsureOutcome, EnsureStatement, ListNames, TableOk, LockOk, HeldAreRead, Millis, HasMonth;
    assert PhaseOk(s.table, s.insts[i]);
    EnsureKeeps(s.table, s.insts[i].now.month, NoFault);
  }

  lemma DropsAndReleases(s: State, i: nat, conn: nat, first: seq<Action>, second: seq<Action>, n: int)
    requires SysOk(s) && i < |s.insts| && s.insts[i].ListedAgain? && s.lock == Some(Holder(i, conn, 1))
    requires OthersOnly(first, i) && OthersOnly(second, i)
    requires WindowCovered(s.table.parts, n)
    ensures var s' := ToTheEnd(s, i, conn, first, second);
      && SysOk(s') && i < |s'.insts| && s'.insts[i] == Outside && s'.lock == None
      && (Cutoff(s.insts[i].now).month <= n ==> WindowCovered(s'.table.parts, n))
      && PartsFrom(s'.table.parts, Cutoff(s.insts[i].now).month)
  {
    hide TableOk, ListNames, EnsureOutcome, DropOutcome, Millis, Exec, PhasesOk, HeldAreRead, LockOk, HasMonth,
        PartsFrom, Cutoff;
    OthersWait(s, first, i);
    var s1 := Exec(s, first);
    AfterDropping(s1, i, NoFault);
    var s2 := Step(s1, DropExpired(i, NoFault));
    OthersWait(s2, second, i);
    StepKeeps(Exec(s2, second), Release(i, conn));
  }

  /** An instance that finds the lock free and whose statements do not fail runs to its end,
      whatever the clock, logging requests and other instances do at each of its waits: the
      lock is free again, the window of the month it read is covered, and no partition is of a
      month before its cutoff. */
  lemma RunAmongOthers(s: State, i: nat, conn: nat, others: seq<seq<Action>>)
    requires SysOk(s) && i < |s.insts| && s.insts[i] == Outside && s.lock == None
    requires |others| == 5 && forall k | 0 <= k < 5 :: OthersOnly(others[k], i)
    ensures var adding := UpToAdding(s, i, conn, others[0]);
      && i < |adding.insts| && adding.insts[i].Adding?
      && var dropping := UpToDropping(adding, i, others[1], others[2]);
      && i < |dropping.insts| && dropping.insts[i].ListedAgain?
      && var s' := ToTheEnd(dropping, i, conn, others[3], others[4]);
      && var n, c := adding.insts[i].now.month, Cutoff(dropping.insts[i].now).month;
      && SysOk(s') && i < |s'.insts| && s'.insts[i] == Outside && s'.lock == None
      && (c <= n ==> WindowCovered(s'.table.parts, n)) && PartsFrom(s'.table.parts, c)
  {
    hide SysOk, UpToAdding, UpToDropping, ToTheEnd, WindowCovered, PartsFrom, Cutoff, OthersOnly;
    LocksAndLists(s, i, conn, others[0]);
    var adding := UpToAdding(s, i, conn, others[0]);
    AddsAndLists(adding, i, others[1], others[2]);
    var dropping := UpToDropping(adding, i, others[1], others[2]);
    DropsAndReleases(dropping, i, conn, others[3], others[4], adding.insts[i].now.month);
  }

  // ---------------------------------------------------------------- statements within a run

  lemma {:induction false} KeepsPrefix(s: State, xs: seq<Action>, ys: seq<Action>)
    requires KeepsConnections(s, xs + ys)
    ensures KeepsConnections(s, xs) && KeepsConnections(Exec(s, xs), ys)
    decreases |xs|
  {
    hide Step, KeepsConnection;
    if xs == [] {
      assert xs + ys == ys;
    } else {
      assert (xs + ys)[0] == xs[0] && (xs + ys)[1..] == xs[1..] + ys;
      KeepsPrefix(Step(s, xs[0]), xs[1..], ys);
    }
  }

  lemma StateAt(s: State, history: seq<Action>, k: nat)
    requires IsStart(s) && KeepsConnections(s, history) && k < |history|
    ensures SysOk(Exec(s, history[..k]))
    ensures Exec(s, history[..k + 1]) == Step(Exec(s, history[..k]), history[k])
  {
    hide IsStart, SysOk, KeepsConnections, Step;
    assert history == history[..k] + history[k..];
    KeepsPrefix(s, history[..k], history[k..]);
    StartIsOk(s);
    ExecKeeps(s, history[..k]);
    assert history[..k + 1] == history[..k] + [history[k]];
    ExecAppend(s, history[..k], [history[k]]);
    assert [history[k]][1..] == [];
    assert Exec(Exec(s, history[..k]), [history[k]]) == Exec(Step(Exec(s, history[..k]), history[k]), []);
  }

  /** A drop that took effect somewhere in a run leaves nothing of a month before its cutoff. */
  lemma DropInRun(s: State, history: seq<Action>, i: nat, fault: Fault, k: nat)
    requires IsStart(s) && KeepsConnections(s, history) && k < |history| && history[k] == DropExpired(i, fault)
    requires i < |Exec(s, history[..k]).insts| && Exec(s, history[..k]).insts[i].ListedAgain? && !fault.NotExecuted?
    ensures PartsFrom(Exec(s, history[..k + 1]).table.parts, Cutoff(Exec(s, history[..k]).insts[i].now).month)
  {
    hide IsStart, SysOk, KeepsConnections, Step, Exec, Cutoff, HasMonth, PartsFrom;
    StateAt(s, history, k);
    AfterDropping(Exec(s, history[..k]), i, fault);
    PartsOfNothingBefore(Exec(s, history[..k + 1]), Cutoff(Exec(s, history[..k]).insts[i].now).month);
  }

  lemma PartsOfNothingBefore(s: State, c: int)
    requires NothingBefore(s, c)
    ensures PartsFrom(s.table.parts, c)
  {
  }

  /** An adding statement that took effect somewhere in a run has its window covered at every
      later point until the cutoff passes the window's first month. */
  lemma AddInRun(s: State, history: seq<Action>, i: nat, fault: Fault, k: nat, later: nat)
    requires IsStart(s) && KeepsConnections(s, history) && k < later <= |history| && history[k] == Ensure(i, fault)
    requires i < |Exec(s, history[..k]).insts| && Exec(s, history[..k]).insts[i].Adding? && !fault.NotExecuted?
    ensures var n := Exec(s, history[..k]).insts[i].now.month;
      Cutoff(Exec(s, history[..later]).clock).month <= n ==> WindowCovered(Exec(s, history[..later]).table.parts, n)
  {
    hide IsStart, SysOk, KeepsConnections, Step, Exec, Cutoff, WindowCovered, NoneInPmax;
    StateAt(s, history, k);
    assert history[..later] == history[..k + 1] + history[k + 1..later];
    ExecAppend(s, history[..k + 1], history[k + 1..later]);
    AddingCoversTheWindow(Exec(s, history[..k]), i, fault, history[k + 1..later]);
  }
}
