/**
 The two tables of the sign-in sessions, `t_session` and `t_session_refresh`, with the
 queries and unique keys the repository relies on.
 */
module UserTables {
  import opened Optional
  import opened Tokens

  datatype SessionRow = SessionRow(sessionId: string, userId: string, ip: Option<string>, isDelete: bool)

  datatype RefreshRow = RefreshRow(
    sessionId: string,
    refreshHash: Digest,
    refreshEncrypted: Cipher,
    beforeRefreshHash: Option<Digest>,
    endAt: int)

  /** `refreshes` lists the rows in insertion order, which is primary-key order. */
  datatype Db = Db(sessions: map<string, SessionRow>, refreshes: seq<RefreshRow>)

  datatype UniqueKey = RefreshHashKey | BeforeRefreshHashKey

  datatype InsertResult = Inserted(db: Db) | Duplicate(key: UniqueKey)

  const EMPTY_DB := Db(map[], [])

  /** The row rotated from the token with digest `h`. */
  function FindRotated(rows: seq<RefreshRow>, h: Digest): (r: Option<RefreshRow>)
    ensures r.Some? ==> r.value in rows && r.value.beforeRefreshHash == Some(h)
    ensures r.None? ==> forall x | x in rows :: x.beforeRefreshHash != Some(h)
  {
    if rows == [] then None
    else if rows[0].beforeRefreshHash == Some(h) then Some(rows[0])
    else FindRotated(rows[1..], h)
  }

  /** The unexpired row that stores the token with digest `h`, by the database clock. */
  function FindSubmitted(rows: seq<RefreshRow>, h: Digest, dbNow: int): (r: Option<RefreshRow>)
    ensures r.Some? ==> r.value in rows && r.value.refreshHash == h && r.value.endAt > dbNow
    ensures r.None? ==> forall x | x in rows :: !(x.refreshHash == h && x.endAt > dbNow)
  {
    if rows == [] then None
    else if rows[0].refreshHash == h && rows[0].endAt > dbNow then Some(rows[0])
    else FindSubmitted(rows[1..], h, dbNow)
  }

  /** A request address is compared only when there is one; a NULL column never matches. */
  predicate AddressMatches(row: SessionRow, ip: Option<string>) {
    ip.Some? && ip.value != "" ==> row.ip == ip
  }

  /** The live session `id`, seen from request address `ip`. */
  function FindSession(db: Db, id: string, ip: Option<string>): (r: Option<SessionRow>)
    ensures r.Some? <==> id in db.sessions && !db.sessions[id].isDelete && AddressMatches(db.sessions[id], ip)
    ensures r.Some? ==> r.value == db.sessions[id]
  {
    if id in db.sessions && !db.sessions[id].isDelete && AddressMatches(db.sessions[id], ip)
    then Some(db.sessions[id])
    else None
  }

  predicate HasHash(rows: seq<RefreshRow>, h: Digest) {
    exists r | r in rows :: r.refreshHash == h
  }

  predicate HasRotated(rows: seq<RefreshRow>, h: Digest) {
    exists r | r in rows :: r.beforeRefreshHash == Some(h)
  }

  /** NULL never clashes with NULL under a unique key. */
  predicate ClashesBefore(rows: seq<RefreshRow>, row: RefreshRow) {
    row.beforeRefreshHash.Some? && HasRotated(rows, row.beforeRefreshHash.value)
  }

  /** Inserts `row` unless it repeats a unique key. When it repeats both, the server may
      report either one: `report` is its choice. */
  function InsertRefresh(db: Db, row: RefreshRow, report: UniqueKey): InsertResult {
    var hash := HasHash(db.refreshes, row.refreshHash);
    var before := ClashesBefore(db.refreshes, row);
    if hash && before then Duplicate(report)
    else if hash then Duplicate(RefreshHashKey)
    else if before then Duplicate(BeforeRefreshHashKey)
    else Inserted(db.(refreshes := db.refreshes + [row]))
  }

  /** The rows of one session, in insertion order. */
  function Chain(rows: seq<RefreshRow>, id: string): seq<RefreshRow> {
    if rows == [] then []
    else
      var last := rows[|rows| - 1];
      Chain(rows[..|rows| - 1], id) + (if last.sessionId == id then [last] else [])
  }

  lemma {:induction false} ChainMember(rows: seq<RefreshRow>, id: string, r: RefreshRow)
    ensures r in Chain(rows, id) <==> r in rows && r.sessionId == id
  {
    if rows != [] {
      var n := |rows| - 1;
      ChainMember(rows[..n], id, r);
      assert rows == rows[..n] + [rows[n]];
    }
  }

  lemma ChainOfAppend(rows: seq<RefreshRow>, r: RefreshRow, id: string)
    ensures Chain(rows + [r], id) == Chain(rows, id) + (if r.sessionId == id then [r] else [])
  {
    assert (rows + [r])[..|rows|] == rows;
  }
}
