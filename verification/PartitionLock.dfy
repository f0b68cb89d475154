/**
 The advisory lock around maintenance: exactly when it excludes, what it then guarantees of
 the statements issued, and exactly when its release frees it.
 */
module PartitionLock {
  import opened Optional
  import opened Calendar
  import opened PartitionNames
  import opened PartitionTable
  import opened PartitionPlan
  import opened PartitionInvariant
  import opened PartitionRuns

  // ---------------------------------------------------------------- exclusion

  /** While no connection that owns the lock is closed inside, two instances are never both
      inside the maintenance section, however instances interleave, crash, fail and release on
      connections that do not own the lock. */
  lemma MutualExclusion(s: State, actions: seq<Action>, i: nat, j: nat)
    requires IsStart(s) && KeepsConnections(s, actions)
    requires i < |Exec(s, actions).insts| && j < |Exec(s, actions).insts|
    requires Exec(s, actions).insts[i] != Outside && Exec(s, actions).insts[j] != Outside
    ensures i == j
  {
    hide KeepsConnections, Exec, TableOk;
    StartIsOk(s);
    ExecKeeps(s, actions);
    OnlyOneInside(Exec(s, actions), i, j);
  }

  predicate BothInside(s: State, i: nat, j: nat) {
    i < |s.insts| && j < |s.insts| && i != j && s.insts[i] != Outside && s.insts[j] != Outside
  }

  /** With one instance inside, a second one gets in after some step exactly when that step
      closes the connection that owns the lock. */
  lemma SecondEntersIffClosed(s: State, i: nat, j: nat, a: Action, conn: nat)
    requires SysOk(s) && i < |s.insts| && j < |s.insts| && i != j && s.insts[i] != Outside
    ensures BothInside(Step(Step(s, a), Acquire(j, conn)), i, j) <==>
            a.CloseConnection? && a.inst == i && Holds(s.lock, i, a.conn)
  {
    hide TableOk, ListNames, EnsureOutcome, DropOutcome, Millis, PhasesOk, HeldAreRead;
    OthersAreOutside(s, i);
    var s1 := Step(s, a);
    if s1.insts[i] != Outside {
      OthersStayOut(s, i, j, a);
      if a.CloseConnection? && a.inst == i && Holds(s.lock, i, a.conn) {
        assert s1.lock == None && s1.insts == s.insts;
      } else {
        assert s1.lock.Some? && s1.lock.value.inst == i;
      }
    }
  }

  lemma OthersStayOut(s: State, i: nat, j: nat, a: Action)
    requires i < |s.insts| && j < |s.insts| && i != j && s.insts[j] == Outside
    requires s.lock.Some? && s.lock.value.inst == i
    ensures Step(s, a).insts[j] == Outside
    ensures
      var closes := a.CloseConnection? && a.inst == i && Holds(s.lock, i, a.conn);
      var s' := Step(s, a);
      (s.insts[i] != Outside && s'.insts[i] != Outside && !closes) ==> (s'.lock.Some? && s'.lock.value.inst == i)
  {
    hide ListNames, EnsureOutcome, DropOutcome, Millis;
  }

  /** Two instances are inside, or one attempt to lock would put two inside. */
  ghost predicate Broken(s: State) {
    exists i, j, conn :: BothInside(Step(s, Acquire(j, conn)), i, j)
  }

  ghost predicate EverBroken(s: State, actions: seq<Action>)
    decreases |actions|
  {
    Broken(s) || (actions != [] && EverBroken(Step(s, actions[0]), actions[1..]))
  }

  lemma SoundLockIsNotBroken(s: State)
    requires SysOk(s)
    ensures !Broken(s)
  {
    hide TableOk, PhasesOk, HeldAreRead, LockOk;
    if i: nat, j: nat, conn: nat :| BothInside(Step(s, Acquire(j, conn)), i, j) {
      StepKeeps(s, Acquire(j, conn));
      OnlyOneInside(Step(s, Acquire(j, conn)), i, j);
      assert false;
    }
  }

  lemma ClosingBreaks(s: State, a: Action)
    requires SysOk(s) && |s.insts| >= 2 && !KeepsConnection(s, a)
    ensures Broken(Step(s, a))
  {
    hide SysOk, Step;
    var i := a.inst;
    var j := if i == 0 then 1 else 0;
    SecondEntersIffClosed(s, i, j, a, 0);
  }

  /** Over whole runs of at least two instances: exclusion is broken somewhere exactly when some
      connection that owns the lock is closed while its instance is inside. */
  lemma {:induction false} ExclusionBreaksIffClosedInside(s: State, actions: seq<Action>)
    requires SysOk(s) && |s.insts| >= 2
    ensures EverBroken(s, actions) <==> !KeepsConnections(s, actions)
    decreases |actions|
  {
    hide SysOk, KeepsConnection, Step, Broken;
    SoundLockIsNotBroken(s);
    if actions != [] {
      var s' := Step(s, actions[0]);
      if KeepsConnection(s, actions[0]) {
        StepKeeps(s, actions[0]);
        StepKeepsClock(s, actions[0]);
        ExclusionBreaksIffClosedInside(s', actions[1..]);
      } else {
        ClosingBreaks(s, actions[0]);
        assert EverBroken(s', actions[1..]);
      }
    }
  }

  // ---------------------------------------------------------------- the statements issued

  /** The statement an instance is about to issue is one the server accepts. A drop names
      neither `pmax` nor a partition of the current month or later. */
  ghost predicate NextStatementIsLegal(s: State, phase: Phase) {
    match phase
    case Adding(names, now) => EnsureStatement(s.table, names, now.month).Altered?
    case ListedAgain(names, now) =>
      && DropPartitions(s.table, ExpiredNames(names, Cutoff(now))).Altered?
      && "pmax" !in ExpiredNames(names, Cutoff(now))
      && forall m | m >= s.clock.month && HasMonth(s.table.parts, m) ::
           HasMonth(DropOutcome(s.table, names, now, NoFault).parts, m)
    case _ => true
  }

  lemma SoundStateIssuesLegally(s: State, i: nat)
    requires SysOk(s) && i < |s.insts|
    ensures NextStatementIsLegal(s, s.insts[i])
  {
    hide EnsureStatement, DropPartitions, DropOutcome, ListNames, Cutoff, TableOk, HasMonth, LockOk, HeldAreRead;
    assert PhaseOk(s.table, s.insts[i]);
    match s.insts[i]
    case Adding(names, now) => EnsureKeeps(s.table, now.month, NoFault);
    case ListedAgain(names, now) =>
      HeldIsNotLater(s, i);
      CutoffIsInThePast(now);
      DropKeeps(s.table, s.clock.month, now, NoFault);
    case _ =>
  }

  /** While no connection that owns the lock is closed inside, with a clock that never goes back,
      across outages, restarts, crashes and failed statements of any number of instances, every
      statement issued is legal. */
  lemma EveryStatementIsLegal(s: State, actions: seq<Action>, i: nat)
    requires IsStart(s) && KeepsConnections(s, actions) && i < |Exec(s, actions).insts|
    ensures NextStatementIsLegal(Exec(s, actions), Exec(s, actions).insts[i])
  {
    hide KeepsConnections, Exec, NextStatementIsLegal, TableOk;
    StartIsOk(s);
    ExecKeeps(s, actions);
    SoundStateIssuesLegally(Exec(s, actions), i);
  }

  /** Whatever names it listed and whoever else is inside, an instance's adding statement on a
      partitioned table is accepted exactly when it listed none, and so partitions anew, or the
      months it found missing still come after every partition; refused or not, the table stays
      sound. */
  lemma AddingIsLegalIff(s: State, i: nat)
    requires Sound(s) && s.table.partitioned && i < |s.insts| && s.insts[i].Adding?
    ensures var Adding(names, now) := s.insts[i];
      NextStatementIsLegal(s, s.insts[i]) <==>
      names == [] || ComeAfter(s.table.parts, MissingMonths(now.month, names, now.month))
    ensures Sound(Step(s, Ensure(i, NoFault)))
  {
    hide EnsureStatement, MissingMonths, WellMade, HeldAreRead, Step;
    AnyEnsureStatement(s.table, s.insts[i].names, s.insts[i].now);
    StepIsSound(s, Ensure(i, NoFault));
  }

  /** The same of a drop, built from names listed once each: it is accepted exactly when every
      name it found expired is still a partition; refused or not, the table stays sound. */
  lemma DroppingIsLegalIff(s: State, i: nat)
    requires Sound(s) && s.table.partitioned && i < |s.insts| && s.insts[i].ListedAgain?
    requires forall a, b | 0 <= a < b < |s.insts[i].names| :: s.insts[i].names[a] != s.insts[i].names[b]
    ensures var ListedAgain(names, now) := s.insts[i];
      DropPartitions(s.table, ExpiredNames(names, Cutoff(now))).Altered? <==>
      forall n | n in names && IsExpired(n, Cutoff(now)) :: exists p :: p in s.table.parts && p.name == n
    ensures Sound(Step(s, DropExpired(i, NoFault)))
  {
    hide WellMade, HeldAreRead, Step, Cutoff, IsExpired;
    var ListedAgain(names, now) := s.insts[i];
    var expired := ExpiredNames(names, Cutoff(now));
    ExpiredNamesDistinct(names, Cutoff(now));
    forall n ensures n in expired <==> n in names && IsExpired(n, Cutoff(now)) {
      ExpiredNamesMember(names, Cutoff(now), n);
    }
    forall n ensures n in PartNames(s.table.parts) <==> exists p :: p in s.table.parts && p.name == n {
      NamedPart(s.table.parts, n);
    }
    StepIsSound(s, DropExpired(i, NoFault));
  }

  lemma NamedPart(parts: seq<Part>, n: string)
    ensures n in PartNames(parts) <==> exists p :: p in parts && p.name == n
  {
    if p :| p in parts && p.name == n {
      var k :| 0 <= k < |parts| && parts[k] == p;
      assert PartNames(parts)[k] == n;
    }
    if n in PartNames(parts) {
      var k :| 0 <= k < |parts| && PartNames(parts)[k] == n;
      assert parts[k] in parts;
    }
  }

  lemma NamesRepeat(parts: seq<Part>, added: seq<Part>, p: Part)
    requires p in parts && p in added
    ensures !NamesDistinct(parts + added)
  {
    var i :| 0 <= i < |parts| && parts[i] == p;
    var j :| 0 <= j < |added| && added[j] == p;
    assert (parts + added)[i].name == (parts + added)[|parts| + j].name;
  }

  /** After a statement built from some names, one built from the same names is refused for a
      duplicate name whenever both found some month missing. */
  lemma RepeatedAddIsRefused(t: Table, names: seq<string>, now: Clock, later: Clock, m: nat)
    requires t.partitioned && TableOk(t, now.month) && names == ListNames(t)
    requires m in MissingMonths(now.month, names, now.month) && m in MissingMonths(later.month, names, later.month)
    ensures var t' := EnsureOutcome(t, names, now.month, NoFault).0;
      EnsureStatement(t', names, later.month) == Refused(ER_DUPLICATE_NAME)
  {
    hide ListNames, MissingMonths, MonthParts, MonthIn, MonthClauses, NamesDistinct, BoundsIncrease, ToParts;
    hide BoundsReadable, NoHole, WellMade;
    var months, again := MissingMonths(now.month, names, now.month), MissingMonths(later.month, names, later.month);
    PartitionedListsPmax(t);
    FillingIsLegal(t, now.month);
    WindowMonthsInRange(later, names);
    ClausesReadAsParts(again);
    var i :| 0 <= i < |months| && months[i] == m;
    var j :| 0 <= j < |again| && again[j] == m;
    assert MonthParts(months)[i] == MonthPart(m) == MonthParts(again)[j];
    assert MonthParts(months)[i] in t.parts + MonthParts(months);
    NamesRepeat(t.parts + MonthParts(months), MonthParts(again), MonthPart(m));
  }

  lemma PartitionedListsPmax(t: Table)
    requires t.partitioned
    ensures ListNames(t) != []
  {
  }

  /** The listed names of window months still have their partitions. */
  ghost predicate ListedStillThere(t: Table, names: seq<string>, n: nat) {
    forall m: nat | n <= m <= n + AHEAD && PartitionName(m) in names :: HasMonth(t.parts, m)
  }

  /** The adding statement takes effect: the server accepts it and no fault stops it. */
  predicate TakesEffect(t: Table, names: seq<string>, n: nat, fault: Fault) {
    EnsureStatement(t, names, n).Altered? && !fault.NotExecuted?
  }

  /** Exactly when an adding step that counts as done has covered its window, with or without
      exclusion: its statement took effect, or every month it found missing has a partition by
      now. A swallowed refusal alone guarantees nothing. */
  lemma AddingCoversIff(t: Table, names: seq<string>, now: Clock, fault: Fault)
    requires TableSound(t) && t.partitioned && names != [] && ListedStillThere(t, names, now.month)
    requires EnsureOutcome(t, names, now.month, fault).1 == Ensured
    ensures WindowCovered(EnsureOutcome(t, names, now.month, fault).0.parts, now.month) <==>
      TakesEffect(t, names, now.month, fault) ||
      forall m | m in MissingMonths(now.month, names, now.month) :: HasMonth(t.parts, m)
  {
    hide EnsureStatement, WellMade, HasMonth, MissingMonths, PartitionName, MonthParts;
    var n, months := now.month, MissingMonths(now.month, names, now.month);
    var t' := EnsureOutcome(t, names, n, fault).0;
    AnyEnsureStatement(t, names, now);
    forall m: nat | n <= m <= n + AHEAD ensures m in months <==> PartitionName(m) !in names {
      MissingMonthsMember(n, names, n, m);
    }
    WindowMonthsInRange(now, names);
    if TakesEffect(t, names, n, fault) {
      if months == [] {
        assert t' == t;
      } else {
        MonthsOfExtended(t, months);
      }
      assert forall m: nat | n <= m <= n + AHEAD :: HasMonth(t'.parts, m);
    } else {
      assert t' == t;
    }
    NatWindow(t'.parts, n);
  }

  lemma NatWindow(parts: seq<Part>, n: nat)
    ensures WindowCovered(parts, n) <==> forall m: nat | n <= m <= n + AHEAD :: HasMonth(parts, m)
  {
    hide HasMonth;
  }

  lemma MonthsOfExtended(t: Table, months: seq<nat>)
    requires forall m | m in months :: InRange(m) && InRange(m + 1)
    ensures forall m: nat | m in months || HasMonth(t.parts, m) :: HasMonth(t.parts + MonthParts(months), m)
  {
    hide MonthPart, MonthIn;
    var all := t.parts + MonthParts(months);
    forall m: nat | m in months || HasMonth(t.parts, m) ensures HasMonth(all, m) {
      if m in months {
        var i :| 0 <= i < |months| && months[i] == m;
        MonthPartIsMade(m);
        assert MonthParts(months)[i] in all;
      } else {
        var p :| p in t.parts && MonthIn(p) == m;
        assert p in all;
      }
    }
  }

  /** Two instances inside that listed the same names, with clock readings of their own, and a
      month both found missing: the second one's statement is refused for a duplicate name,
      which it takes for success; the first one's partitions and all rows stay. The second
      one's window is covered exactly when every month it found missing now has a partition. */
  lemma SecondAdderIsRefused(s: State, i: nat, j: nat, m: nat)
    requires Sound(s) && s.table.partitioned && BothInside(s, i, j)
    requires s.insts[i].Adding? && s.insts[j].Adding? && s.insts[j].names == s.insts[i].names == ListNames(s.table)
    requires TableOk(s.table, s.insts[i].now.month) && TableOk(s.table, s.insts[j].now.month)
    requires m in MissingMonths(s.insts[i].now.month, s.insts[i].names, s.insts[i].now.month)
    requires m in MissingMonths(s.insts[j].now.month, s.insts[j].names, s.insts[j].now.month)
    ensures var Adding(names, later) := s.insts[j];
      var s1 := Step(s, Ensure(i, NoFault));
      var s2 := Step(s1, Ensure(j, NoFault));
      && i < |s1.insts| && s1.insts[i] == Ensured && WindowCovered(s1.table.parts, s.insts[i].now.month)
      && EnsureStatement(s1.table, names, later.month) == Refused(ER_DUPLICATE_NAME)
      && j < |s2.insts| && s2.insts[j] == Ensured && s2.table == s1.table && s1.table.rows == s.table.rows
      && (WindowCovered(s2.table.parts, later.month) <==>
            forall k | k in MissingMonths(later.month, names, later.month) :: HasMonth(s1.table.parts, k))
  {
    hide ListNames, EnsureStatement, MissingMonths, WellMade, NoHole, HeldAreRead, HasMonth;
    hide PartitionName, WindowCovered;
    var Adding(names, now) := s.insts[i];
    var later := s.insts[j].now;
    PartitionedListsPmax(s.table);
    EnsureKeeps(s.table, now.month, NoFault);
    RepeatedAddIsRefused(s.table, names, now, later, m);
    var s1 := Step(s, Ensure(i, NoFault));
    StepIsSound(s, Ensure(i, NoFault));
    AnyEnsureIsSound(s.table, names, now, NoFault);
    ListedStay(s.table, s1.table, names, later);
    AddingCoversIff(s1.table, names, later, NoFault);
  }

  lemma ListedStay(t: Table, t': Table, names: seq<string>, now: Clock)
    requires t.partitioned && TableSound(t) && names == ListNames(t) && t.parts <= t'.parts
    ensures ListedStillThere(t', names, now.month)
  {
    hide PartitionName, ListNames, MonthIn, WellMade;
    forall m: nat | now.month <= m <= now.month + AHEAD && PartitionName(m) in names ensures HasMonth(t'.parts, m) {
      ListedIffHasMonth(t, m);
      var p :| p in t.parts && MonthIn(p) == m;
      assert p in t'.parts;
    }
  }

  /** With the second reading in the next month, the run that took the refusal for success has
      left the last month of its window without a partition. */
  lemma SwallowedRefusalLeavesTheWindowShort(s: State, i: nat, j: nat)
    requires Sound(s) && s.table.partitioned && BothInside(s, i, j)
    requires s.insts[i].Adding? && s.insts[j].Adding? && s.insts[j].names == s.insts[i].names == ListNames(s.table)
    requires s.insts[j].now.month == s.insts[i].now.month + 1 && TableOk(s.table, s.insts[i].now.month)
    requires forall m | m >= s.insts[i].now.month + AHEAD :: !HasMonth(s.table.parts, m)
    ensures var n := s.insts[i].now.month;
      var s2 := Step(Step(s, Ensure(i, NoFault)), Ensure(j, NoFault));
      && j < |s2.insts| && s2.insts[j] == Ensured
      && !HasMonth(s2.table.parts, n + 1 + AHEAD) && !WindowCovered(s2.table.parts, n + 1)
  {
    hide ListNames, EnsureStatement, MissingMonths, WellMade, NoHole, HeldAreRead, HasMonth, PartitionName;
    var Adding(names, now) := s.insts[i];
    var n, later := now.month, s.insts[j].now;
    TableOkLater(s.table, n, n + 1);
    MissingIffAbsent(s.table, now, n + AHEAD);
    MissingIffAbsent(s.table, later, n + AHEAD);
    SecondAdderIsRefused(s, i, j, n + AHEAD);
    PartitionedListsPmax(s.table);
    AddedAreInWindow(s.table, names, now, n + 1 + AHEAD);
  }

  lemma MissingIffAbsent(t: Table, now: Clock, m: nat)
    requires t.partitioned && TableSound(t) && now.month <= m <= now.month + AHEAD && !HasMonth(t.parts, m)
    ensures m in MissingMonths(now.month, ListNames(t), now.month)
  {
    hide PartitionName, ListNames, WellMade, HasMonth, MissingMonths;
    ListedIffHasMonth(t, m);
    MissingMonthsMember(now.month, ListNames(t), now.month, m);
  }

  lemma AddedAreInWindow(t: Table, names: seq<string>, now: Clock, m: int)
    requires TableSound(t) && names != [] && t.partitioned && m > now.month + AHEAD && !HasMonth(t.parts, m)
    ensures !HasMonth(EnsureOutcome(t, names, now.month, NoFault).0.parts, m)
  {
    hide EnsureStatement, MissingMonths, MonthParts, MonthIn, WellMade, IssuesEnsure, PartitionName;
    var months := MissingMonths(now.month, names, now.month);
    AnyEnsureStatement(t, names, now);
    WindowMonthsInRange(now, names);
    forall p | p in MonthParts(months) ensures MonthIn(p) != m {
      MonthPartsAreOfMonths(months, p);
    }
  }

  /** Such states are reached from any start of two instances, by closing one connection; the
      clock may have moved on to any later reading between the two. */
  lemma BothListTheSameNames(s: State, to: Clock)
    requires IsStart(s) && |s.insts| >= 2 && Millis(s.clock) <= Millis(to)
    ensures var s1 := Step(Step(Step(s, Acquire(0, 0)), CloseConnection(0, 0)), Acquire(1, 0));
      var s2 := Step(Step(s1, ListPartitions(0)), ListPartitions(1));
      var s3 := Step(Step(Step(s2, ReadClock(0)), Tick(to)), ReadClock(1));
      && BothInside(s1, 0, 1) && BothInside(s3, 0, 1) && s3.table == s.table
      && s3.insts[0] == Adding(ListNames(s.table), s.clock) && s3.insts[1] == Adding(ListNames(s.table), to)
  {
    hide TableOk, ListNames, EnsureOutcome, DropOutcome, Millis;
    var names := ListNames(s.table);
    var rest := s.insts[2..];
    assert s.insts == [Outside, Outside] + rest;
    var s1 := s.(lock := Some(Holder(1, 0, 1)), insts := [Locked, Locked] + rest);
    assert Step(Step(Step(s, Acquire(0, 0)), CloseConnection(0, 0)), Acquire(1, 0)) == s1;
    var s2 := s1.(insts := [Listed(names), Listed(names)] + rest);
    assert Step(Step(s1, ListPartitions(0)), ListPartitions(1)) == s2;
    var s3 := s2.(clock := to, insts := [Adding(names, s.clock), Adding(names, to)] + rest);
    assert Step(Step(Step(s2, ReadClock(0)), Tick(to)), ReadClock(1)) == s3;
  }

  // ---------------------------------------------------------------- freeing the lock

  /** Leaving frees a held lock exactly when the release is sent on the connection that owns it
      and that connection holds it once; the instance is outside either way. */
  lemma ReleaseFreesIffHeldOnce(s: State, i: nat, conn: nat)
    requires i < |s.insts| && s.insts[i].Leaving? && s.lock.Some?
    ensures Step(s, Release(i, conn)).lock == None <==> Holds(s.lock, i, conn) && s.lock.value.depth <= 1
    ensures Step(s, Release(i, conn)).insts[i] == Outside
  {
  }

  /** The actions leave the connection open and its instance running. */
  predicate Spares(actions: seq<Action>, i: nat, conn: nat) {
    forall a | a in actions :: a != CloseConnection(i, conn) && a != Crash(i)
  }

  /** The connection holds the lock more often than its instance's next release gives back. */
  predicate Leaked(s: State, i: nat, conn: nat) {
    && i < |s.insts| && Holds(s.lock, i, conn)
    && s.lock.value.depth >= if s.insts[i] == Outside then 1 else 2
  }

  lemma LeakedStep(s: State, a: Action, i: nat, conn: nat, j: nat)
    requires Leaked(s, i, conn) && j < |s.insts| && i != j && s.insts[j] == Outside
    requires a != CloseConnection(i, conn) && a != Crash(i)
    ensures Leaked(Step(s, a), i, conn) && Step(s, a).insts[j] == Outside
    ensures |Step(s, a).insts| == |s.insts|
  {
    hide EnsureOutcome, DropOutcome, ListNames, Millis;
    EnsuredOrLeaving(s, a);
  }

  lemma EnsuredOrLeaving(s: State, a: Action)
    ensures a.Ensure? && a.inst < |s.insts| && s.insts[a.inst].Adding? ==> Step(s, a).insts[a.inst] != Outside
  {
    if a.Ensure? && a.inst < |s.insts| && s.insts[a.inst].Adding? {
      EnsureHoldsNoDate(s.table, s.insts[a.inst].names, s.insts[a.inst].now.month, a.fault);
    }
  }

  /** A leaked lock is never freed again while its connection stays open and its instance runs,
      whatever releases are sent and on whatever connections: every other instance stays
      outside, so all their maintenance has stopped. */
  lemma {:induction false} LeakedLockIsNeverFreed(s: State, actions: seq<Action>, i: nat, conn: nat, j: nat)
    requires Leaked(s, i, conn) && j < |s.insts| && i != j && s.insts[j] == Outside && Spares(actions, i, conn)
    ensures Leaked(Exec(s, actions), i, conn)
    ensures j < |Exec(s, actions).insts| && Exec(s, actions).insts[j] == Outside
    decreases |actions|
  {
    hide Step, Leaked;
    if actions != [] {
      assert actions[0] in actions && forall a | a in actions[1..] :: a in actions;
      LeakedStep(s, actions[0], i, conn, j);
      LeakedLockIsNeverFreed(Step(s, actions[0]), actions[1..], i, conn, j);
    }
  }

  ghost predicate ShutOut(s: State, i: nat, conn: nat, j: nat) {
    forall actions | Spares(actions, i, conn) ::
      j < |Exec(s, actions).insts| && Exec(s, actions).insts[j] == Outside
  }

  /** When an instance leaves, its release shuts another instance out of every continuation in
      which the owning connection lives on, exactly unless it is sent on that connection and
      the connection holds the lock once. */
  lemma ReleaseShutsOutUnlessHeldOnce(s: State, i: nat, owner: nat, conn: nat, j: nat)
    requires i < |s.insts| && s.insts[i].Leaving? && Holds(s.lock, i, owner)
    requires s.lock.value.depth >= 1 && j < |s.insts| && i != j && s.insts[j] == Outside
    ensures ShutOut(Step(s, Release(i, conn)), i, owner, j) <==> !(conn == owner && s.lock.value.depth <= 1)
  {
    var s' := Step(s, Release(i, conn));
    if conn == owner && s.lock.value.depth <= 1 {
      var enter := [Acquire(j, 0)];
      assert Spares(enter, i, owner);
      assert enter[1..] == [];
      assert Exec(s', enter) == Exec(Step(s', Acquire(j, 0)), []) == Step(s', Acquire(j, 0));
      assert Exec(s', enter).insts[j] == Locked;
    } else {
      assert Leaked(s', i, owner);
      forall actions | Spares(actions, i, owner)
        ensures j < |Exec(s', actions).insts| && Exec(s', actions).insts[j] == Outside
      {
        LeakedLockIsNeverFreed(s', actions, i, owner, j);
      }
    }
  }
}
