/**
 What one maintenance run of the API-log table decides from the clock and the partition
 names: the months to add, the cutoff, and the partitions to drop.
 */
module PartitionPlan {
  import opened Calendar
  import opened PartitionNames
  import opened PartitionTable

  const AHEAD: int := 3
  const RETENTION_MONTHS: int := 24

  /** Months the names and date strings can carry: years of four digits. */
  predicate InRange(month: int) {
    12000 <= month < 120000
  }

  /** A clock reading whose whole window stays within four-digit years. */
  predicate ClockOk(now: Date) {
    ValidDate(now) && InRange(now.month - RETENTION_MONTHS) && InRange(now.month + AHEAD + 1)
  }

  type Clock = d: Date | ClockOk(d) witness Date(24000, 1, 0)

  /** The clause for one month: its name, and the first of the next month as its bound. */
  function MonthClause(month: nat): Clause {
    Clause(PartitionName(month), ToDateStr(FirstOf(month + 1)))
  }

  /** The months `from` to `n + AHEAD` of the window of month `n` with no partition of their name. */
  function MissingMonths(n: nat, names: seq<string>, from: nat): (months: seq<nat>)
    requires n <= from
    ensures forall m | m in months :: m >= from
    decreases n + AHEAD + 1 - from
  {
    if from > n + AHEAD then []
    else (if PartitionName(from) in names then [] else [from]) + MissingMonths(n, names, from + 1)
  }

  function MonthClauses(months: seq<nat>): (clauses: seq<Clause>)
    ensures |clauses| == |months| && forall i | 0 <= i < |months| :: clauses[i] == MonthClause(months[i])
  {
    seq(|months|, i requires 0 <= i < |months| => MonthClause(months[i]))
  }

  /** The clauses of the statement that fills up the window of month `n`. */
  function WindowClauses(n: nat, names: seq<string>): seq<Clause> {
    MonthClauses(MissingMonths(n, names, n))
  }

  lemma {:induction false} MissingMonthsMember(n: nat, names: seq<string>, from: nat, m: nat)
    requires n <= from
    ensures m in MissingMonths(n, names, from) <==>
            from <= m <= n + AHEAD && PartitionName(m) !in names
    decreases n + AHEAD + 1 - from
  {
    hide PartitionName;
    if from <= n + AHEAD {
      var rest := MissingMonths(n, names, from + 1);
      MissingMonthsMember(n, names, from + 1, m);
      assert MissingMonths(n, names, from) == (if PartitionName(from) in names then rest else [from] + rest);
    }
  }

  lemma {:induction false} MissingMonthsIncrease(n: nat, names: seq<string>, from: nat)
    requires n <= from
    ensures forall i, j | 0 <= i < j < |MissingMonths(n, names, from)| ::
      MissingMonths(n, names, from)[i] < MissingMonths(n, names, from)[j]
    decreases n + AHEAD + 1 - from
  {
    if from <= n + AHEAD {
      MissingMonthsIncrease(n, names, from + 1);
      var head := if PartitionName(from) in names then [] else [from];
      var rest, all := MissingMonths(n, names, from + 1), MissingMonths(n, names, from);
      assert all == head + rest;
      forall i, j | 0 <= i < j < |all| ensures all[i] < all[j] {
        assert all[j] == rest[j - |head|] && rest[j - |head|] in rest;
        if i >= |head| {
          assert all[i] == rest[i - |head|];
        }
      }
    }
  }

  /** The current date moved back by the retention months, then to its month's first. */
  function Cutoff(now: Date): (c: Date)
    requires ValidDate(now)
    ensures ValidDate(c)
  {
    SetMidnight(SetDay(SetMonth(now, now.month - RETENTION_MONTHS), 1))
  }

  predicate IsExpired(name: string, cutoff: Date) {
    && name != "pmax"
    && var date := ParsePartitionName(name);
    && date.Some? && Millis(date.value) < Millis(cutoff)
  }

  function ExpiredNames(names: seq<string>, cutoff: Date): seq<string> {
    if names == [] then []
    else (if IsExpired(names[0], cutoff) then [names[0]] else []) + ExpiredNames(names[1..], cutoff)
  }

  lemma {:induction false} ExpiredNamesMember(names: seq<string>, cutoff: Date, name: string)
    ensures name in ExpiredNames(names, cutoff) <==> name in names && IsExpired(name, cutoff)
  {
    if names != [] {
      ExpiredNamesMember(names[1..], cutoff, name);
      assert names == [names[0]] + names[1..];
    }
  }

  lemma {:induction false} ExpiredNamesDistinct(names: seq<string>, cutoff: Date)
    requires forall i, j | 0 <= i < j < |names| :: names[i] != names[j]
    ensures forall i, j | 0 <= i < j < |ExpiredNames(names, cutoff)| ::
      ExpiredNames(names, cutoff)[i] != ExpiredNames(names, cutoff)[j]
  {
    hide IsExpired;
    if names != [] {
      var rest := names[1..];
      assert forall i, j | 0 <= i < j < |rest| :: rest[i] != rest[j];
      ExpiredNamesDistinct(rest, cutoff);
      forall n | n in ExpiredNames(rest, cutoff) ensures n != names[0] {
        ExpiredNamesMember(rest, cutoff, n);
      }
      var head := if IsExpired(names[0], cutoff) then [names[0]] else [];
      var all := ExpiredNames(names, cutoff);
      assert all == head + ExpiredNames(rest, cutoff);
      forall i, j | 0 <= i < j < |all| ensures all[i] != all[j] {
        var tail := ExpiredNames(rest, cutoff);
        assert all[j] == tail[j - |head|] && tail[j - |head|] in tail;
        if i >= |head| {
          assert all[i] == tail[i - |head|];
        }
      }
    }
  }

  // ---------------------------------------------------------------- the cutoff

  predicate IsLeapDay(d: Date) {
    d.month % 12 == 1 && d.day == 29
  }

  lemma RetentionKeepsMonthLength(month: int)
    ensures DaysIn(month - RETENTION_MONTHS) ==
      if month % 12 == 1 && IsLeap(month / 12) then DaysIn(month) - 1
      else if month % 12 == 1 && IsLeap(month / 12 - 2) then DaysIn(month) + 1
      else DaysIn(month)
  {
    assert (month - 24) % 12 == month % 12 && (month - 24) / 12 == month / 12 - 2;
    LeapYearsAreFourApart(month / 12);
  }

  lemma LeapYearsAreFourApart(year: int)
    ensures !(IsLeap(year) && IsLeap(year - 2))
  {
  }

  lemma CutoffOverflows(now: Date)
    requires ValidDate(now)
    ensures var back := now.month - RETENTION_MONTHS;
      Cutoff(now) == FirstOf(if now.day <= DaysIn(back) then back else back + 1)
  {
    hide MonthStart, DaysIn;
    var back := now.month - RETENTION_MONTHS;
    if now.day > DaysIn(back) {
      assert MakeDate(back, now.day, now.ms) == MakeDate(back + 1, now.day - DaysIn(back), now.ms);
    }
    var moved := SetMonth(now, back);
    assert moved.month == if now.day <= DaysIn(back) then back else back + 1;
    assert SetDay(moved, 1) == Date(moved.month, 1, now.ms);
  }

  lemma OverflowsOnLeapDay(now: Date)
    requires ValidDate(now)
    ensures now.day > DaysIn(now.month - RETENTION_MONTHS) <==> IsLeapDay(now)
  {
    hide MonthStart;
    RetentionKeepsMonthLength(now.month);
  }

  /** The cutoff is midnight on the first of the month 24 months back, except on 29 February,
      when the day overflows and it is a month later: a month less is then retained. */
  lemma CutoffIsRetentionMonthsBackUnlessLeapDay(now: Date)
    requires ValidDate(now)
    ensures Cutoff(now) == FirstOf(now.month - 24 + (if now.month % 12 == 1 && now.day == 29 then 1 else 0))
    ensures Cutoff(now) == FirstOf(now.month - 24) <==> !IsLeapDay(now)
  {
    hide Cutoff, DaysIn;
    CutoffOverflows(now);
    OverflowsOnLeapDay(now);
  }

  lemma FebruaryIsShort(month: int)
    ensures month % 12 == 1 ==> DaysIn(month) <= 29
  {
  }

  /** The cutoff never moves back while the clock moves forward. */
  lemma CutoffAdvances(earlier: Date, later: Date)
    requires ValidDate(earlier) && ValidDate(later) && Millis(earlier) <= Millis(later)
    ensures Cutoff(earlier).month <= Cutoff(later).month
  {
    hide Cutoff, MonthStart, DaysIn;
    CutoffIsRetentionMonthsBackUnlessLeapDay(earlier);
    CutoffIsRetentionMonthsBackUnlessLeapDay(later);
    DateOrder(earlier, later);
    FebruaryIsShort(later.month);
    if earlier.month == later.month {
      assert earlier.day <= later.day;
    }
  }
}
