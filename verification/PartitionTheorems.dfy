/** What an undisturbed maintenance run leaves, and which retained rows one of them loses. */
module PartitionTheorems {
  import opened Optional
  import opened Calendar
  import opened PartitionNames
  import opened PartitionTable
  import opened PartitionPlan
  import opened PartitionInvariant
  import opened PartitionRuns
  import opened PartitionCoverage

  /** The table after the window is filled, with no failure. */
  function Filled(t: Table, n: nat): Table {
    EnsureOutcome(t, ListNames(t), n, NoFault).0
  }

  /** The table after one whole maintenance run at `now`, with no failure. */
  function Maintain(t: Table, now: Clock): Table {
    DropOutcome(Filled(t, now.month), ListNames(Filled(t, now.month)), now, NoFault)
  }

  /** A whole run of one instance with nothing in between. */
  function RunAlone(s: State, i: nat, conn: nat): State {
    ToTheEnd(UpToDropping(UpToAdding(s, i, conn, []), i, [], []), i, conn, [], [])
  }

  lemma LocksAlone(s: State, i: nat, conn: nat)
    requires i < |s.insts| && s.insts[i] == Outside && s.lock == None
    ensures UpToAdding(s, i, conn, []) ==
      s.(lock := Some(Holder(i, conn, 1)), insts := s.insts[i := Adding(ListNames(s.table), s.clock)])
  {
    hide ListNames, EnsureOutcome, DropOutcome, Millis;
    var names := ListNames(s.table);
    var s1 := Step(s, Acquire(i, conn));
    var s2 := Step(s1, ListPartitions(i));
    assert s2 == s.(lock := Some(Holder(i, conn, 1)), insts := s.insts[i := Listed(names)]);
    assert Exec(s1, []) == s1;
  }

  lemma AddsAlone(s: State, i: nat)
    requires SysOk(s) && i < |s.insts| && s.insts[i] == Adding(ListNames(s.table), s.clock)
    ensures var filled := Filled(s.table, s.clock.month);
      UpToDropping(s, i, [], []) == s.(table := filled, insts := s.insts[i := ListedAgain(ListNames(filled), s.clock)])
  {
    hide ListNames, EnsureOutcome, DropOutcome, Millis, SysOk;
    EnsureSucceeds(s, i);
    var filled := Filled(s.table, s.clock.month);
    var s4 := Step(s, Ensure(i, NoFault));
    assert s4 == s.(table := filled, insts := s.insts[i := Ensured]);
    var s5 := Step(s4, ReadClock(i));
    assert s5 == s.(table := filled, insts := s.insts[i := Dropping(s.clock)]);
    assert Exec(s, []) == s && Exec(s5, []) == s5;
  }

  lemma DropsAlone(s: State, i: nat, conn: nat)
    requires i < |s.insts| && s.insts[i] == ListedAgain(ListNames(s.table), s.clock)
    requires s.lock == Some(Holder(i, conn, 1))
    ensures
      var dropped := DropOutcome(s.table, ListNames(s.table), s.clock, NoFault);
      ToTheEnd(s, i, conn, [], []) == s.(table := dropped, lock := None, insts := s.insts[i := Outside])
  {
    hide ListNames, EnsureOutcome, DropOutcome, Millis;
    var s7 := Step(s, DropExpired(i, NoFault));
    assert Exec(s, []) == s && Exec(s7, []) == s7;
  }

  /** An instance that finds the lock free and is not disturbed changes nothing but the table,
      which it leaves maintained. */
  lemma UndisturbedRun(s: State, i: nat, conn: nat)
    requires SysOk(s) && i < |s.insts| && s.insts[i] == Outside && s.lock == None
    ensures RunAlone(s, i, conn) == s.(table := Maintain(s.table, s.clock))
  {
    hide SysOk, UpToAdding, UpToDropping, ToTheEnd, Filled, DropOutcome, ListNames;
    assert OthersOnly([], i);
    LocksAndLists(s, i, conn, []);
    LocksAlone(s, i, conn);
    var s3 := UpToAdding(s, i, conn, []);
    AddsAlone(s3, i);
    DropsAlone(UpToDropping(s3, i, [], []), i, conn);
    var filled := Filled(s.table, s.clock.month);
    var adding, dropping := Adding(ListNames(s.table), s.clock), ListedAgain(ListNames(filled), s.clock);
    assert s.insts[i := adding][i := dropping][i := Outside] == s.insts;
  }

  // ---------------------------------------------------------------- retention

  /** A row in the partition of the oldest retained month survives a drop exactly when the
      run is not on 29 February. */
  lemma OldestMonthSurvivesUnlessLeapDay(t: Table, now: Clock, row: int)
    requires t.partitioned && TableOk(t, now.month) && row in t.rows
    requires var k := Locate(t.parts, DayOf(row));
      k < |t.parts| && MonthIn(t.parts[k]) == now.month - 24
    ensures row in DropOutcome(t, ListNames(t), now, NoFault).rows <==> !(now.month % 12 == 1 && now.day == 29)
  {
    hide Cutoff, WellMade, NoHole, ListNames, ExpiredNames, MonthIn, Made, IsExpired;
    CutoffIsRetentionMonthsBackUnlessLeapDay(now);
    var c := Cutoff(now).month;
    var names := ExpiredNames(ListNames(t), Cutoff(now));
    DroppingExpired(t, c, now.month);
    RowsOutsideCount(t.parts, names, t.rows, row);
    StoredInIffExpired(t, c, row);
  }

  lemma StoredInIffExpired(t: Table, c: int, row: int)
    requires t.partitioned && WellMade(t.parts) && Locate(t.parts, DayOf(row)) < |t.parts|
    ensures StoredIn(t.parts, ExpiredNames(ListNames(t), FirstOf(c)), row) <==>
            MonthIn(t.parts[Locate(t.parts, DayOf(row))]) < c
  {
    hide MonthIn, IsExpired, PartitionName, ParsePartitionName;
    var k := Locate(t.parts, DayOf(row));
    var p := t.parts[k];
    assert p in t.parts && Made(p);
    assert ListNames(t)[k] == p.name;
    ExpiredNamesMember(ListNames(t), FirstOf(c), p.name);
    ExpiredIffEarlier(p, c);
  }

  // ---------------------------------------------------------------- a leap day loses a month

  predicate InMonth(row: int, m: int) {
    Millis(FirstOf(m)) <= row < Millis(FirstOf(m + 1))
  }

  /** A row of the earliest month that has a partition is stored in that partition. */
  lemma EarliestMonthIsFirst(parts: seq<Part>, m: int, row: int)
    requires WellMade(parts) && PartsFrom(parts, m) && HasMonth(parts, m) && InMonth(row, m)
    ensures Locate(parts, DayOf(row)) == 0 && |parts| > 0 && MonthIn(parts[0]) == m
  {
    hide PartitionName, ParsePartitionName, MonthIn, MonthStart;
    var p :| p in parts && MonthIn(p) == m;
    var i :| 0 <= i < |parts| && parts[i] == p;
    assert parts[0] in parts && Made(p);
    assert DayOf(row) < p.bound;
  }

  /** The first run on a table gives the current month a partition, none to an earlier month,
      and keeps the month's rows. */
  lemma FirstRunCovers(t: Table, now: Clock, row: int)
    requires !t.partitioned && t.parts == [] && InMonth(row, now.month) && row in t.rows
    ensures var t' := Maintain(t, now);
      && t'.partitioned && TableOk(t', now.month) && HasMonth(t'.parts, now.month)
      && PartsFrom(t'.parts, now.month) && row in t'.rows
  {
    hide EnsureOutcome, DropOutcome, Cutoff, WellMade, NoHole, Millis, MonthIn, InMonth, EnsureStatement,
        DropPartitions;
    var n := now.month;
    var filled := Filled(t, n);
    UnpartitionedIsOk(t, n);
    EnsureKeeps(t, n, NoFault);
    AnyEnsureIsSound(t, ListNames(t), now, NoFault);
    CutoffIsInThePast(now);
    DropKeeps(filled, n, now, NoFault);
    AnyDropIsSound(filled, ListNames(filled), now, NoFault);
    RowIsAfterCutoff(now, n, row);
    AnyDropConserves(filled, ListNames(filled), now, NoFault, row);
    assert multiset(filled.rows)[row] > 0;
  }

  lemma UnpartitionedIsOk(t: Table, n: int)
    requires !t.partitioned && t.parts == []
    ensures TableOk(t, n) && PartsFrom(t.parts, n)
  {
  }

  lemma RowIsAfterCutoff(now: Clock, m: int, row: int)
    requires InMonth(row, m) && Cutoff(now).month <= m
    ensures row >= Millis(Cutoff(now))
  {
    hide Cutoff, MonthStart;
    CutoffIsInThePast(now);
    MonthStartOrders(Cutoff(now).month, m);
  }

  /** A table first maintained in the February 24 months before a 29 February and next
      maintained on it loses that February's rows, which are to be retained. */
  lemma LeapDayRunLosesAMonth(t: Table, first: Clock, leap: Clock, row: int)
    requires !t.partitioned && t.parts == [] && InMonth(row, first.month) && row in t.rows
    requires IsLeapDay(leap) && leap.month == first.month + 24
    ensures row >= Millis(FirstOf(leap.month - 24))
    ensures row in Maintain(t, first).rows && row !in Maintain(Maintain(t, first), leap).rows
  {
    hide EnsureOutcome, DropOutcome, Cutoff, WellMade, NoHole, Millis, MonthIn, EnsureStatement, PartsFrom, HasMonth;
    var m := first.month;
    FirstRunCovers(t, first, row);
    var t1 := Maintain(t, first);
    TableOkLater(t1, m, leap.month);
    EnsureKeeps(t1, leap.month, NoFault);
    var filled := Filled(t1, leap.month);
    ListNamesIsNotEmpty(t1);
    AnyEnsureIsSound(t1, ListNames(t1), leap, NoFault);
    MonthSurvivesAdding(t1.parts, filled.parts, m, leap.month);
    EarliestMonthIsFirst(filled.parts, m, row);
    OldestMonthSurvivesUnlessLeapDay(filled, leap, row);
  }

  lemma MonthSurvivesAdding(before: seq<Part>, after: seq<Part>, m: int, n: int)
    requires before <= after && HasMonth(before, m) && PartsFrom(before, m) && m <= n
    requires forall p | p in after :: p in before || MonthIn(p) >= n
    ensures HasMonth(after, m) && PartsFrom(after, m)
  {
    hide MonthIn;
    var p :| p in before && MonthIn(p) == m;
    assert p in after;
  }

  const FEBRUARY_2022: Clock := Date(24265, 1, 0)
  const LEAP_DAY_2024: Clock := Date(24289, 29, 0)

  /** One instance, on 1 February 2022, with one row logged that day and no partitions yet. */
  const FRESH_SYSTEM := State(Table(false, [], [Millis(FEBRUARY_2022)]), FEBRUARY_2022, None, [Outside])

  /** A concrete run: maintenance on 1 February 2022, then on 29 February 2024, loses the row. */
  lemma LeapDayWitness()
    ensures var row := Millis(FEBRUARY_2022);
      var s1 := RunAlone(FRESH_SYSTEM, 0, 0);
      var s2 := RunAlone(Step(s1, Tick(LEAP_DAY_2024)), 0, 0);
      && row >= Millis(FirstOf(LEAP_DAY_2024.month - 24))
      && row in s1.table.rows && row !in s2.table.rows
  {
    hide Maintain, Millis, RunAlone, WellMade, MonthIn;
    var row := Millis(FEBRUARY_2022);
    assert IsStart(FRESH_SYSTEM);
    StartIsOk(FRESH_SYSTEM);
    UndisturbedRun(FRESH_SYSTEM, 0, 0);
    MonthsApart();
    var t1 := Maintain(FRESH_SYSTEM.table, FEBRUARY_2022);
    FirstRunCovers(FRESH_SYSTEM.table, FEBRUARY_2022, row);
    var s := Step(RunAlone(FRESH_SYSTEM, 0, 0), Tick(LEAP_DAY_2024));
    assert s == State(t1, LEAP_DAY_2024, None, [Outside]);
    TableOkLater(t1, 24265, 24289);
    StartIsOk(s);
    UndisturbedRun(s, 0, 0);
    LeapDayRunLosesAMonth(FRESH_SYSTEM.table, FEBRUARY_2022, LEAP_DAY_2024, row);
  }

  lemma MonthsApart()
    ensures InMonth(Millis(FEBRUARY_2022), 24265)
    ensures Millis(FEBRUARY_2022) <= Millis(LEAP_DAY_2024)
  {
    hide MonthStart;
    MonthStartOrders(24265, 24266);
    DateOrder(FEBRUARY_2022, LEAP_DAY_2024);
  }
}
