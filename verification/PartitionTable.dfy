/**
 A table partitioned by range of day numbers, as the server keeps it: parts with exclusive
 upper bounds in increasing order, then `pmax` for everything above, and the rows stored.
 */
module PartitionTable {
  import opened Optional
  import opened Calendar
  import opened PartitionNames

  datatype Part = Part(name: string, bound: int)

  /** `rows` holds each row's creation time in milliseconds. Only a partitioned table has
      parts, and then `pmax` follows them. */
  datatype Table = Table(partitioned: bool, parts: seq<Part>, rows: seq<int>)

  /** `PARTITION name VALUES LESS THAN (TO_DAYS('lessThan'))` */
  datatype Clause = Clause(name: string, lessThan: string)

  datatype DdlResult = Altered(table: Table) | Refused(errno: int)

  const ER_NOT_PARTITIONED: int := 1505
  const ER_BAD_BOUND: int := 1486
  const ER_NOT_INCREASING: int := 1493
  const ER_NO_SUCH_PARTITION: int := 1507
  const ER_DUPLICATE_NAME: int := 1517

  function PartNames(parts: seq<Part>): (names: seq<string>)
    ensures |names| == |parts| && forall i | 0 <= i < |parts| :: names[i] == parts[i].name
  {
    seq(|parts|, i requires 0 <= i < |parts| => parts[i].name)
  }

  /** The partition names the server lists: none before the table is partitioned. */
  function ListNames(t: Table): seq<string> {
    if t.partitioned then PartNames(t.parts) + ["pmax"] else []
  }

  function ToPart(c: Clause): Option<Part> {
    match ToDays(c.lessThan)
    case None => None
    case Some(day) => Some(Part(c.name, day))
  }

  predicate BoundsReadable(clauses: seq<Clause>) {
    forall c | c in clauses :: ToPart(c).Some?
  }

  function ToParts(clauses: seq<Clause>): seq<Part>
    requires BoundsReadable(clauses)
  {
    seq(|clauses|, i requires 0 <= i < |clauses| => assert clauses[i] in clauses; ToPart(clauses[i]).value)
  }

  predicate NamesDistinct(parts: seq<Part>) {
    && (forall i, j | 0 <= i < j < |parts| :: parts[i].name != parts[j].name)
    && (forall p | p in parts :: p.name != "pmax")
  }

  predicate BoundsIncrease(parts: seq<Part>) {
    forall i, j | 0 <= i < j < |parts| :: parts[i].bound < parts[j].bound
  }

  /** The parts of a table whose `pmax` is split into `clauses` and a new `pmax`. */
  function Extend(t: Table, clauses: seq<Clause>): DdlResult {
    if !BoundsReadable(clauses) then Refused(ER_BAD_BOUND)
    else
      var parts := t.parts + ToParts(clauses);
      if !NamesDistinct(parts) then Refused(ER_DUPLICATE_NAME)
      else if !BoundsIncrease(parts) then Refused(ER_NOT_INCREASING)
      else Altered(Table(true, parts, t.rows))
  }

  /** `ALTER TABLE ... PARTITION BY RANGE`, replacing any earlier partitioning. */
  function PartitionBy(t: Table, clauses: seq<Clause>): DdlResult {
    Extend(Table(true, [], t.rows), clauses)
  }

  /** `ALTER TABLE ... REORGANIZE PARTITION pmax INTO (clauses, pmax)` */
  function Reorganize(t: Table, clauses: seq<Clause>): DdlResult {
    if !t.partitioned then Refused(ER_NOT_PARTITIONED) else Extend(t, clauses)
  }

  /** The index of the part a day falls in, `|parts|` standing for `pmax`. */
  function Locate(parts: seq<Part>, day: int): (k: nat)
    ensures k <= |parts|
    ensures forall i | 0 <= i < k :: parts[i].bound <= day
    ensures k < |parts| ==> day < parts[k].bound
  {
    if parts == [] || day < parts[0].bound then 0 else 1 + Locate(parts[1..], day)
  }

  function DayOf(row: int): int {
    row / MS_PER_DAY
  }

  /** The row is stored in one of the named partitions. */
  predicate StoredIn(parts: seq<Part>, names: seq<string>, row: int) {
    var k := Locate(parts, DayOf(row));
    k < |parts| && parts[k].name in names
  }

  function RowsOutside(parts: seq<Part>, names: seq<string>, rows: seq<int>): seq<int> {
    if rows == [] then []
    else (if StoredIn(parts, names, rows[0]) then [] else [rows[0]]) + RowsOutside(parts, names, rows[1..])
  }

  function PartsOutside(parts: seq<Part>, names: seq<string>): seq<Part> {
    if parts == [] then []
    else (if parts[0].name in names then [] else [parts[0]]) + PartsOutside(parts[1..], names)
  }

  predicate AllListed(parts: seq<Part>, names: seq<string>) {
    && (forall n | n in names :: n in PartNames(parts))
    && (forall i, j | 0 <= i < j < |names| :: names[i] != names[j])
  }

  /** `ALTER TABLE ... DROP PARTITION names`: the parts go, and every row stored in them. */
  function DropPartitions(t: Table, names: seq<string>): DdlResult {
    if !t.partitioned then Refused(ER_NOT_PARTITIONED)
    else if !AllListed(t.parts, names) then Refused(ER_NO_SUCH_PARTITION)
    else Altered(Table(true, PartsOutside(t.parts, names), RowsOutside(t.parts, names, t.rows)))
  }

  lemma {:induction false} PartsOutsideMember(parts: seq<Part>, names: seq<string>, p: Part)
    ensures p in PartsOutside(parts, names) <==> p in parts && p.name !in names
  {
    if parts != [] {
      PartsOutsideMember(parts[1..], names, p);
      assert parts == [parts[0]] + parts[1..];
    }
  }

  lemma {:induction false} RowsOutsideCount(parts: seq<Part>, names: seq<string>, rows: seq<int>, row: int)
    ensures multiset(RowsOutside(parts, names, rows))[row] ==
            if StoredIn(parts, names, row) then 0 else multiset(rows)[row]
  {
    if rows != [] {
      RowsOutsideCount(parts, names, rows[1..], row);
      assert rows == [rows[0]] + rows[1..];
    }
  }
}
