/**
 What maintenance keeps about the partitions: each covers up to the end of the month it is
 named after, in order, and from the current month on no month is skipped.
 */
module PartitionInvariant {
  import opened Optional
  import opened Calendar
  import opened PartitionNames
  import opened PartitionTable
  import opened PartitionPlan

  /** The month a part is named after. */
  ghost function MonthIn(p: Part): int {
    var date := ParsePartitionName(p.name);
    if date.Some? then date.value.month else 0
  }

  ghost function MonthPart(month: nat): Part {
    Part(PartitionName(month), MonthStart(month + 1))
  }

  ghost predicate Made(p: Part) {
    InRange(MonthIn(p)) && InRange(MonthIn(p) + 1) && p == MonthPart(MonthIn(p))
  }

  ghost predicate WellMade(parts: seq<Part>) {
    && (forall p | p in parts :: Made(p))
    && (forall i, j | 0 <= i < j < |parts| :: MonthIn(parts[i]) < MonthIn(parts[j]))
  }

  ghost predicate HasMonth(parts: seq<Part>, month: int) {
    exists p :: p in parts && MonthIn(p) == month
  }

  /** From month `n` to the newest partition every month has one. */
  ghost predicate NoHole(parts: seq<Part>, n: int) {
    forall p, m | p in parts && n <= m <= MonthIn(p) :: HasMonth(parts, m)
  }

  /** Every month of the window of month `n` has a partition. */
  ghost predicate WindowCovered(parts: seq<Part>, n: int) {
    forall m | n <= m <= n + AHEAD :: HasMonth(parts, m)
  }

  /** Every partition covers up to the end of its month, in order. */
  ghost predicate TableSound(t: Table) {
    if t.partitioned then WellMade(t.parts) else t.parts == []
  }

  /** A sound table that skips no month from month `n` on. */
  ghost predicate TableOk(t: Table, n: int) {
    TableSound(t) && NoHole(t.parts, n)
  }

  // ---------------------------------------------------------------- names and bounds

  lemma MonthPartIsMade(month: int)
    requires InRange(month) && InRange(month + 1)
    ensures MonthIn(MonthPart(month)) == month && Made(MonthPart(month))
    ensures ToPart(MonthClause(month)) == Some(MonthPart(month))
  {
    hide MonthStart, DaysIn, ToDays, ToDateStr, PartitionName, ParsePartitionName;
    NameReadsBackIff(month);
    FirstIsValid(month + 1);
    DateStrReadsBack(FirstOf(month + 1));
  }

  lemma FirstIsValid(month: int)
    ensures ValidDate(FirstOf(month)) && DayNumber(FirstOf(month)) == MonthStart(month)
  {
  }

  lemma ListedIffHasMonth(t: Table, month: int)
    requires t.partitioned && WellMade(t.parts) && InRange(month)
    ensures PartitionName(month) in ListNames(t) <==> HasMonth(t.parts, month)
  {
    hide PartitionName, ParsePartitionName, MonthStart;
    NameReadsBackIff(month);
    NamesAreDistinct(month, month);
    if PartitionName(month) in ListNames(t) {
      var i :| 0 <= i < |t.parts| && t.parts[i].name == PartitionName(month);
      assert t.parts[i] in t.parts;
      assert MonthIn(t.parts[i]) == month;
    }
    if HasMonth(t.parts, month) {
      var p :| p in t.parts && MonthIn(p) == month;
      assert Made(p);
      var i :| 0 <= i < |t.parts| && t.parts[i] == p;
      assert PartNames(t.parts)[i] == PartitionName(month);
    }
  }

  /** Parts made for increasing months have distinct names and increasing bounds. */
  lemma WellMadeIsLegal(parts: seq<Part>)
    requires WellMade(parts)
    ensures NamesDistinct(parts) && BoundsIncrease(parts)
  {
    hide PartitionName, ParsePartitionName, MonthStart;
    forall p | p in parts ensures p.name != "pmax" {
      assert Made(p);
      NamesAreDistinct(MonthIn(p), MonthIn(p));
    }
    forall i, j | 0 <= i < j < |parts|
      ensures parts[i].name != parts[j].name && parts[i].bound < parts[j].bound
    {
      assert parts[i] in parts && parts[j] in parts;
      assert Made(parts[i]) && Made(parts[j]);
      NamesAreDistinct(MonthIn(parts[i]), MonthIn(parts[j]));
      MonthStartOrders(MonthIn(parts[i]) + 1, MonthIn(parts[j]) + 1);
    }
  }

  // ---------------------------------------------------------------- adding the window

  ghost function MonthParts(months: seq<nat>): (parts: seq<Part>)
    ensures |parts| == |months| && forall i | 0 <= i < |months| :: parts[i] == MonthPart(months[i])
  {
    seq(|months|, i requires 0 <= i < |months| => MonthPart(months[i]))
  }

  lemma ClausesReadAsParts(months: seq<nat>)
    requires forall m | m in months :: InRange(m) && InRange(m + 1)
    ensures BoundsReadable(MonthClauses(months))
    ensures ToParts(MonthClauses(months)) == MonthParts(months)
  {
    hide ToPart, MonthClause, MonthPart;
    var clauses := MonthClauses(months);
    forall i | 0 <= i < |months| ensures ToPart(clauses[i]) == Some(MonthPart(months[i])) {
      assert months[i] in months;
      MonthPartIsMade(months[i]);
    }
    forall c | c in clauses ensures ToPart(c).Some? {
      var i :| 0 <= i < |clauses| && clauses[i] == c;
    }
  }

  /** Parts for later months in order can follow. */
  lemma AppendMonths(parts: seq<Part>, months: seq<nat>)
    requires WellMade(parts)
    requires forall m | m in months :: InRange(m) && InRange(m + 1)
    requires forall i, j | 0 <= i < j < |months| :: months[i] < months[j]
    requires forall p, m | p in parts && m in months :: MonthIn(p) < m
    ensures WellMade(parts + MonthParts(months))
    ensures forall m: nat :: HasMonth(parts + MonthParts(months), m) <==> HasMonth(parts, m) || m in months
  {
    hide MonthPart, PartitionName, ParsePartitionName, MonthIn, Made;
    var added := MonthParts(months);
    var all := parts + added;
    forall i | 0 <= i < |months| ensures MonthIn(added[i]) == months[i] && Made(added[i]) {
      assert months[i] in months;
      MonthPartIsMade(months[i]);
    }
    forall p | p in all ensures Made(p) {
      var i :| 0 <= i < |all| && all[i] == p;
    }
    forall i, j | 0 <= i < j < |all| ensures MonthIn(all[i]) < MonthIn(all[j]) {
      if i < |parts| <= j {
        assert all[i] in parts && months[j - |parts|] in months;
      }
    }
    forall m: nat ensures HasMonth(all, m) <==> HasMonth(parts, m) || m in months {
      if m in months {
        var i :| 0 <= i < |months| && months[i] == m;
        assert added[i] in all;
      }
      if HasMonth(parts, m) {
        var p :| p in parts && MonthIn(p) == m;
        assert p in all;
      }
      if HasMonth(all, m) {
        var p :| p in all && MonthIn(p) == m;
        if p !in parts {
          var i :| 0 <= i < |added| && added[i] == p;
          assert months[i] in months;
        }
      }
    }
  }

  /** With no hole from month `n` on, a missing month is later than every partition. */
  lemma MissingIsLater(t: Table, n: nat, p: Part, m: nat)
    requires t.partitioned && TableOk(t, n) && p in t.parts && n <= m && InRange(m)
    requires PartitionName(m) !in ListNames(t)
    ensures MonthIn(p) < m
  {
    hide PartitionName, ListNames, MonthIn;
    ListedIffHasMonth(t, m);
  }

  /** Adding later months in order is a legal statement that yields made parts. */
  lemma ExtendingIsLegal(t: Table, months: seq<nat>)
    requires WellMade(t.parts)
    requires forall m | m in months :: InRange(m) && InRange(m + 1)
    requires forall i, j | 0 <= i < j < |months| :: months[i] < months[j]
    requires forall p, m | p in t.parts && m in months :: MonthIn(p) < m
    ensures Extend(t, MonthClauses(months)) == Altered(Table(true, t.parts + MonthParts(months), t.rows))
    ensures WellMade(t.parts + MonthParts(months))
  {
    hide MonthIn, Made, MonthPart, MonthClause, NamesDistinct, BoundsIncrease, WellMade, ToParts, BoundsReadable;
    ClausesReadAsParts(months);
    AppendMonths(t.parts, months);
    WellMadeIsLegal(t.parts + MonthParts(months));
  }

  /** All of the months come after every partition. */
  ghost predicate ComeAfter(parts: seq<Part>, months: seq<nat>) {
    forall p, m | p in parts && m in months :: MonthIn(p) < m
  }

  /** On a table of made parts, adding months in order is legal exactly when all of them come
      after every partition, and the outcome is again made: the server enforces the order. */
  lemma ExtendingIsLegalIff(t: Table, months: seq<nat>)
    requires WellMade(t.parts)
    requires forall m | m in months :: InRange(m) && InRange(m + 1)
    requires forall i, j | 0 <= i < j < |months| :: months[i] < months[j]
    ensures var result := Extend(t, MonthClauses(months));
      && (result.Altered? <==> ComeAfter(t.parts, months))
      && (result.Altered? ==>
            && result.table == Table(true, t.parts + MonthParts(months), t.rows)
            && WellMade(result.table.parts))
  {
    hide MonthIn, MonthPart, MonthClause, NamesDistinct, WellMade, ToParts, BoundsReadable;
    ClausesReadAsParts(months);
    if Extend(t, MonthClauses(months)).Altered? {
      forall p, m | p in t.parts && m in months ensures MonthIn(p) < m {
        var i :| 0 <= i < |t.parts| && t.parts[i] == p;
        var j :| 0 <= j < |months| && months[j] == m;
        OrderedBoundsOrderMonths(t.parts, months, i, j);
      }
      ExtendingIsLegal(t, months);
    } else if ComeAfter(t.parts, months) {
      ExtendingIsLegal(t, months);
    }
  }

  lemma OrderedBoundsOrderMonths(parts: seq<Part>, months: seq<nat>, i: nat, j: nat)
    requires WellMade(parts) && i < |parts| && j < |months| && BoundsIncrease(parts + MonthParts(months))
    ensures MonthIn(parts[i]) < months[j]
  {
    hide MonthIn, PartitionName, MonthStart;
    var all := parts + MonthParts(months);
    assert all[i] == parts[i] && all[|parts| + j] == MonthPart(months[j]);
    assert parts[i] in parts && Made(parts[i]);
    MonthStartOrders(MonthIn(parts[i]) + 1, months[j] + 1);
  }

  /** The months missing from a table without holes all come after its partitions. */
  lemma MissingMonthsFollow(t: Table, n: nat)
    requires t.partitioned && TableOk(t, n) && InRange(n) && InRange(n + AHEAD + 1)
    ensures forall m | m in MissingMonths(n, ListNames(t), n) :: m <= n + AHEAD && InRange(m) && InRange(m + 1)
    ensures forall p, m | p in t.parts && m in MissingMonths(n, ListNames(t), n) :: MonthIn(p) < m
  {
    hide PartitionName, ListNames, MonthIn, Made, WellMade, NoHole;
    var months := MissingMonths(n, ListNames(t), n);
    forall m | m in months ensures m <= n + AHEAD && InRange(m) && InRange(m + 1) && PartitionName(m) !in ListNames(t) {
      MissingMonthsMember(n, ListNames(t), n, m);
    }
    forall p, m | p in t.parts && m in months ensures MonthIn(p) < m {
      MissingIsLater(t, n, p, m);
    }
  }

  /** The window statement on a table without holes is legal; parts and rows stay. */
  lemma FillingIsLegal(t: Table, n: nat)
    requires t.partitioned && TableOk(t, n) && InRange(n) && InRange(n + AHEAD + 1)
    ensures var parts := t.parts + MonthParts(MissingMonths(n, ListNames(t), n));
      Reorganize(t, WindowClauses(n, ListNames(t))) == Altered(Table(true, parts, t.rows)) && WellMade(parts)
  {
    hide PartitionName, ListNames, MonthIn, Made, Extend;
    MissingMonthsFollow(t, n);
    MissingMonthsIncrease(n, ListNames(t), n);
    ExtendingIsLegal(t, MissingMonths(n, ListNames(t), n));
  }

  /** Once filled, the window has a partition for each month and no hole follows it. */
  lemma FillingCovers(t: Table, n: nat)
    requires t.partitioned && TableOk(t, n) && InRange(n) && InRange(n + AHEAD + 1)
    ensures var parts := t.parts + MonthParts(MissingMonths(n, ListNames(t), n));
      NoHole(parts, n) && WindowCovered(parts, n)
  {
    hide PartitionName, ListNames, MonthIn, Made, MonthPart;
    var months := MissingMonths(n, ListNames(t), n);
    MissingMonthsFollow(t, n);
    MissingMonthsIncrease(n, ListNames(t), n);
    AppendMonths(t.parts, months);
    forall m: nat | n <= m <= n + AHEAD ensures HasMonth(t.parts + MonthParts(months), m) {
      MissingMonthsMember(n, ListNames(t), n, m);
      ListedIffHasMonth(t, m);
    }
    NoHoleAfter(t.parts, months, n);
  }

  lemma NoHoleAfter(before: seq<Part>, months: seq<nat>, n: nat)
    requires NoHole(before, n)
    requires forall m | m in months :: m <= n + AHEAD && InRange(m) && InRange(m + 1)
    requires WindowCovered(before + MonthParts(months), n)
    ensures NoHole(before + MonthParts(months), n)
  {
    hide MonthIn, MonthPart;
    var parts := before + MonthParts(months);
    forall p, m | p in parts && n <= m <= MonthIn(p) ensures HasMonth(parts, m) {
      if p in before {
        assert HasMonth(before, m);
        var q :| q in before && MonthIn(q) == m;
        assert q in parts;
      } else {
        var i :| 0 <= i < |months| && MonthParts(months)[i] == p;
        assert months[i] in months;
        MonthPartIsMade(months[i]);
      }
    }
  }

  /** The first partitioning, of a table with none, is legal and covers the window. */
  lemma FirstPartitioning(t: Table, n: nat)
    requires InRange(n) && InRange(n + AHEAD + 1)
    ensures var parts := MonthParts(MissingMonths(n, [], n));
      && PartitionBy(t, WindowClauses(n, [])) == Altered(Table(true, parts, t.rows))
      && WellMade(parts) && NoHole(parts, n) && WindowCovered(parts, n)
  {
    hide PartitionName, MonthIn, Made, MonthPart, Extend;
    var months := MissingMonths(n, [], n);
    var parts := MonthParts(months);
    forall m | m in months ensures InRange(m) && InRange(m + 1) && m <= n + AHEAD {
      MissingMonthsMember(n, [], n, m);
    }
    MissingMonthsIncrease(n, [], n);
    ExtendingIsLegal(Table(true, [], t.rows), months);
    AppendMonths([], months);
    assert [] + parts == parts;
    forall m: nat | n <= m <= n + AHEAD ensures HasMonth(parts, m) {
      MissingMonthsMember(n, [], n, m);
    }
    NoHoleAfter([], months, n);
  }

  // ---------------------------------------------------------------- dropping expired months

  /** A made partition expires exactly when its month is before the cutoff's. */
  lemma ExpiredIffEarlier(p: Part, c: int)
    requires Made(p)
    ensures IsExpired(p.name, FirstOf(c)) <==> MonthIn(p) < c
  {
    hide MonthStart, PartitionName, ParsePartitionName;
    NamesAreDistinct(MonthIn(p), MonthIn(p));
    NameReadsBackIff(MonthIn(p));
    MonthStartOrders(MonthIn(p), c);
  }

  lemma NamesOfWellMadeAreDistinct(t: Table)
    requires t.partitioned && WellMade(t.parts)
    ensures forall i, j | 0 <= i < j < |ListNames(t)| :: ListNames(t)[i] != ListNames(t)[j]
  {
    hide MonthStart, PartitionName, ParsePartitionName, MonthIn, Made;
    WellMadeIsLegal(t.parts);
    forall i, j | 0 <= i < j < |ListNames(t)| ensures ListNames(t)[i] != ListNames(t)[j] {
      assert t.parts[i] in t.parts;
    }
  }

  /** The drop statement names only listed partitions, each once, and never `pmax`. */
  lemma ExpiredAreListed(t: Table, cutoff: Date)
    requires t.partitioned && WellMade(t.parts)
    ensures AllListed(t.parts, ExpiredNames(ListNames(t), cutoff))
  {
    hide IsExpired, Made, MonthIn;
    var names := ExpiredNames(ListNames(t), cutoff);
    NamesOfWellMadeAreDistinct(t);
    ExpiredNamesDistinct(ListNames(t), cutoff);
    forall n | n in names ensures n in PartNames(t.parts) {
      ExpiredNamesMember(ListNames(t), cutoff, n);
      assert n != "pmax" by { ExpiredIsNotPmax(n, cutoff); }
    }
  }

  lemma ExpiredIsNotPmax(n: string, cutoff: Date)
    requires IsExpired(n, cutoff)
    ensures n != "pmax"
  {
  }

  ghost predicate Kept(p: Part, c: int) {
    MonthIn(p) >= c
  }

  /** Dropping the expired names keeps exactly the parts from the cutoff's month on. */
  lemma DropKeepsFromCutoff(t: Table, c: int, p: Part)
    requires t.partitioned && WellMade(t.parts)
    ensures var names := ExpiredNames(ListNames(t), FirstOf(c));
      p in PartsOutside(t.parts, names) <==> p in t.parts && Kept(p, c)
  {
    hide IsExpired, PartitionName, ParsePartitionName, MonthIn, MonthStart;
    var names := ExpiredNames(ListNames(t), FirstOf(c));
    PartsOutsideMember(t.parts, names, p);
    if p in t.parts {
      ExpiredNamesMember(ListNames(t), FirstOf(c), p.name);
      ExpiredIffEarlier(p, c);
      var i :| 0 <= i < |t.parts| && t.parts[i] == p;
      assert ListNames(t)[i] == p.name;
    }
  }

  ghost predicate MonthsIncrease(parts: seq<Part>) {
    forall i, j | 0 <= i < j < |parts| :: MonthIn(parts[i]) < MonthIn(parts[j])
  }

  lemma ConsIncreases(p: Part, tail: seq<Part>)
    requires MonthsIncrease(tail) && forall q | q in tail :: MonthIn(p) < MonthIn(q)
    ensures MonthsIncrease([p] + tail)
  {
    hide MonthIn;
    var all := [p] + tail;
    forall i, j | 0 <= i < j < |all| ensures MonthIn(all[i]) < MonthIn(all[j]) {
      assert all[j] == tail[j - 1] && tail[j - 1] in tail;
      assert i > 0 ==> all[i] == tail[i - 1];
    }
  }

  lemma HeadIsEarliest(parts: seq<Part>)
    requires MonthsIncrease(parts) && parts != []
    ensures MonthsIncrease(parts[1..]) && forall q | q in parts[1..] :: MonthIn(parts[0]) < MonthIn(q)
  {
    hide MonthIn;
    forall q | q in parts[1..] ensures MonthIn(parts[0]) < MonthIn(q) {
      var i :| 0 <= i < |parts[1..]| && parts[1..][i] == q;
      assert parts[i + 1] == q;
    }
  }

  lemma {:induction false} PartsOutsideIncrease(parts: seq<Part>, names: seq<string>)
    requires MonthsIncrease(parts)
    ensures MonthsIncrease(PartsOutside(parts, names))
  {
    hide MonthIn, MonthsIncrease;
    if parts != [] {
      HeadIsEarliest(parts);
      PartsOutsideIncrease(parts[1..], names);
      var tail := PartsOutside(parts[1..], names);
      if parts[0].name !in names {
        forall q | q in tail ensures MonthIn(parts[0]) < MonthIn(q) {
          PartsOutsideMember(parts[1..], names, q);
        }
        ConsIncreases(parts[0], tail);
      } else {
        assert PartsOutside(parts, names) == tail;
      }
    } else {
      NoPartsIncrease();
    }
  }

  lemma NoPartsIncrease()
    ensures MonthsIncrease([])
  {
  }

  lemma PartsOutsideWellMade(parts: seq<Part>, names: seq<string>)
    requires WellMade(parts)
    ensures WellMade(PartsOutside(parts, names))
  {
    hide Made, MonthIn;
    PartsOutsideIncrease(parts, names);
    forall p | p in PartsOutside(parts, names) ensures Made(p) {
      PartsOutsideMember(parts, names, p);
    }
  }

  /** A drop whose cutoff is not after month `n` is legal, keeps the invariant for `n`, and
      drops no month from the cutoff's on. */
  lemma DroppingExpired(t: Table, c: int, n: int)
    requires t.partitioned && TableOk(t, n) && c <= n
    ensures var names := ExpiredNames(ListNames(t), FirstOf(c));
      && DropPartitions(t, names) ==
           Altered(Table(true, PartsOutside(t.parts, names), RowsOutside(t.parts, names, t.rows)))
      && WellMade(PartsOutside(t.parts, names)) && NoHole(PartsOutside(t.parts, names), n)
      && (forall m | m >= c :: HasMonth(t.parts, m) <==> HasMonth(PartsOutside(t.parts, names), m))
      && (forall p | p in PartsOutside(t.parts, names) :: MonthIn(p) >= c)
  {
    hide IsExpired, Made, MonthIn;
    var names := ExpiredNames(ListNames(t), FirstOf(c));
    ExpiredAreListed(t, FirstOf(c));
    PartsOutsideWellMade(t.parts, names);
    var kept := PartsOutside(t.parts, names);
    forall p ensures p in kept <==> p in t.parts && MonthIn(p) >= c {
      DropKeepsFromCutoff(t, c, p);
    }
    forall m | m >= c ensures HasMonth(t.parts, m) <==> HasMonth(kept, m) {
    }
    forall p, m | p in kept && n <= m <= MonthIn(p) ensures HasMonth(kept, m) {
      assert HasMonth(t.parts, m);
    }
  }

  // ---------------------------------------------------------------- the rows

  /** A row in a partition that expires by some list of names, current or stale, was created
      before the cutoff, however many months the partition spans. */
  lemma ExpiredRowsAreOld(t: Table, names: seq<string>, c: int, row: int)
    requires t.partitioned && WellMade(t.parts)
    requires StoredIn(t.parts, ExpiredNames(names, FirstOf(c)), row)
    ensures row < Millis(FirstOf(c))
  {
    hide IsExpired, PartitionName, ParsePartitionName, MonthIn, MonthStart;
    var k := Locate(t.parts, DayOf(row));
    var p := t.parts[k];
    ExpiredNamesMember(names, FirstOf(c), p.name);
    assert p in t.parts && Made(p);
    ExpiredIffEarlier(p, c);
    MonthStartOrders(MonthIn(p) + 1, c);
    assert DayOf(row) < MonthStart(c);
  }

  /** When every partition is from month `c` on, rows from before `c` are in the lowest one. */
  lemma OldRowsAreInTheLowest(parts: seq<Part>, c: int, row: int)
    requires WellMade(parts) && (forall p | p in parts :: MonthIn(p) >= c)
    requires row < Millis(FirstOf(c))
    ensures Locate(parts, DayOf(row)) == 0
  {
    hide PartitionName, ParsePartitionName, MonthIn, MonthStart;
    if parts != [] {
      var p := parts[0];
      assert p in parts && Made(p);
      MonthStartOrders(c, MonthIn(p) + 1);
      assert DayOf(row) < MonthStart(c) < p.bound;
    }
  }

  /** While month `m` has a partition, no row up to its end falls in `pmax`. */
  lemma RowsAvoidPmax(parts: seq<Part>, m: int, row: int)
    requires WellMade(parts) && HasMonth(parts, m) && row < Millis(FirstOf(m + 1))
    ensures Locate(parts, DayOf(row)) < |parts|
  {
    hide PartitionName, ParsePartitionName, MonthIn, MonthStart;
    var p :| p in parts && MonthIn(p) == m;
    assert Made(p);
    var i :| 0 <= i < |parts| && parts[i] == p;
    assert DayOf(row) < p.bound;
  }
}
