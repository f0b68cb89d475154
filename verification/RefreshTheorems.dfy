/** What the rotation machine promises in every run, under either isolation level. */
module RefreshTheorems {
  import opened Optional
  import opened Tokens
  import opened UserTables
  import opened RefreshProtocol
  import opened RefreshInvariant

  lemma ReachableOk(iso: Isolation, actions: seq<Action>)
    ensures StateOk(Exec(iso, INITIAL, actions))
  {
    InitialOk();
    ExecKeeps(iso, INITIAL, actions);
  }

  // ---------------------------------------------------------------- idempotence

  lemma HashFindsOneIndex(rows: seq<RefreshRow>, i: nat, j: nat)
    requires UniqueKeys(rows) && i < |rows| && j < |rows| && rows[i].refreshHash == rows[j].refreshHash
    ensures i == j
  {
  }

  lemma PredecessorFindsOneIndex(rows: seq<RefreshRow>, i: nat, j: nat)
    requires UniqueKeys(rows) && i < |rows| && j < |rows|
    requires rows[i].beforeRefreshHash.Some? && rows[i].beforeRefreshHash == rows[j].beforeRefreshHash
    ensures i == j
  {
  }

  lemma RotatedRowIsUnique(rows: seq<RefreshRow>, a: RefreshRow, b: RefreshRow)
    requires UniqueKeys(rows) && a in rows && b in rows
    requires a.beforeRefreshHash.Some? && a.beforeRefreshHash == b.beforeRefreshHash
    ensures a == b
  {
    var i :| 0 <= i < |rows| && rows[i] == a;
    var j :| 0 <= j < |rows| && rows[j] == b;
    PredecessorFindsOneIndex(rows, i, j);
  }

  /** Any two successful answers to one submitted token carry the same refresh token and
      expiry: first rotation, replay and lost race alike, in every interleaving. */
  lemma IdempotentRotation(iso: Isolation, actions: seq<Action>, i: nat, j: nat)
    requires var s := Exec(iso, INITIAL, actions);
      && i < |s.calls| && j < |s.calls| && s.calls[i].token == s.calls[j].token
      && s.calls[i].phase.Done? && s.calls[i].phase.reply.Ok?
      && s.calls[j].phase.Done? && s.calls[j].phase.reply.Ok?
    ensures var s := Exec(iso, INITIAL, actions);
      && s.calls[i].phase.reply.refresh == s.calls[j].phase.reply.refresh
      && s.calls[i].phase.reply.refreshExpiresAt == s.calls[j].phase.reply.refreshExpiresAt
  {
    ReachableOk(iso, actions);
    var s := Exec(iso, INITIAL, actions);
    var h := Sha256Hex(s.calls[i].token);
    assert CallOk(s.db, s.calls[i]) && CallOk(s.db, s.calls[j]);
    var a :| a in s.db.refreshes && a.beforeRefreshHash == Some(h)
      && DecryptAesGcm(a.refreshEncrypted) == s.calls[i].phase.reply.refresh;
    var b :| b in s.db.refreshes && b.beforeRefreshHash == Some(h)
      && DecryptAesGcm(b.refreshEncrypted) == s.calls[j].phase.reply.refresh;
    RotatedRowIsUnique(s.db.refreshes, a, b);
  }

  /** Every token ever handed out is of its kind, for the user and session of the submitted
      token; its reported expiry is the one signed into it, 20 minutes after an access token and
      one day after a refresh token was signed. */
  lemma AnswersNameTheSubmitter(iso: Isolation, actions: seq<Action>, i: nat)
    requires var s := Exec(iso, INITIAL, actions);
      i < |s.calls| && s.calls[i].phase.Done? && s.calls[i].phase.reply.Ok?
    ensures var c := Exec(iso, INITIAL, actions).calls[i];
      && c.token.Jwt?
      && var Ok(access, accessExpiresAt, refresh, refreshExpiresAt) := c.phase.reply;
      && access == Jwt("access", c.token.userId, c.token.sessionId, accessExpiresAt - 1200, accessExpiresAt)
      && refresh == Jwt("refresh", c.token.userId, c.token.sessionId, refreshExpiresAt - 86400, refreshExpiresAt)
  {
    ReachableOk(iso, actions);
    var s := Exec(iso, INITIAL, actions);
    assert CallOk(s.db, s.calls[i]);
    var r :| r in s.db.refreshes && r.beforeRefreshHash == Some(Sha256Hex(s.calls[i].token))
      && DecryptAesGcm(r.refreshEncrypted) == s.calls[i].phase.reply.refresh;
    assert RowAgrees(s.db, r);
  }

  /** Every stored row decrypts to a refresh token whose digest, expiry, session and user are
      the ones in its columns and its session, and which lives exactly one day. */
  lemma RowsAgreeWithTheirTokens(iso: Isolation, actions: seq<Action>, r: RefreshRow)
    requires r in Exec(iso, INITIAL, actions).db.refreshes
    ensures var t := DecryptAesGcm(r.refreshEncrypted);
      var sessions := Exec(iso, INITIAL, actions).db.sessions;
      && Sha256Hex(t) == r.refreshHash
      && r.sessionId in sessions
      && t == Jwt("refresh", sessions[r.sessionId].userId, r.sessionId, r.endAt - 86400, r.endAt)
  {
    ReachableOk(iso, actions);
    assert RowAgrees(Exec(iso, INITIAL, actions).db, r);
  }

  // ---------------------------------------------------------------- the shape of the chain

  /** A chain lists its rows in insertion order. */
  lemma {:induction false} ChainOrder(rows: seq<RefreshRow>, id: string, a: nat, b: nat) returns (i: nat, j: nat)
    requires a < b < |Chain(rows, id)|
    ensures i < j < |rows| && rows[i] == Chain(rows, id)[a] && rows[j] == Chain(rows, id)[b]
  {
    var n := |rows| - 1;
    var front := Chain(rows[..n], id);
    if b < |front| {
      i, j := ChainOrder(rows[..n], id, a, b);
    } else {
      ChainMember(rows[..n], id, front[a]);
      i :| 0 <= i < n && rows[..n][i] == front[a];
      j := n;
    }
  }

  /** Exactly one row of each session has no predecessor. */
  ghost predicate HasOneRoot(rows: seq<RefreshRow>, id: string) {
    exists i :: 0 <= i < |rows| && rows[i].sessionId == id && rows[i].beforeRefreshHash == None
      && forall j | 0 <= j < |rows| && j != i && rows[j].sessionId == id :: rows[j].beforeRefreshHash != None
  }

  /** Every link points to an earlier-inserted row of the same session. */
  ghost predicate LinksPointBack(rows: seq<RefreshRow>, j: nat)
    requires j < |rows|
  {
    rows[j].beforeRefreshHash.Some? ==>
      exists i :: 0 <= i < j && rows[i].sessionId == rows[j].sessionId
        && rows[i].refreshHash == rows[j].beforeRefreshHash.value
  }

  /** No row has two successors. */
  ghost predicate AtMostOneSuccessor(rows: seq<RefreshRow>) {
    forall i, j | 0 <= i < |rows| && 0 <= j < |rows| && i != j && rows[i].beforeRefreshHash.Some? ::
      rows[i].beforeRefreshHash != rows[j].beforeRefreshHash
  }

  lemma OnlyTheHeadIsUnlinked(path: seq<RefreshRow>, k: nat)
    requires IsPath(path) && k < |path|
    ensures k > 0 ==> path[k].beforeRefreshHash != None
  {
    if k > 0 {
      assert path[k].beforeRefreshHash == Some(path[k - 1].refreshHash);
    }
  }

  /** The one row of a session that has no predecessor is the head of its chain. */
  lemma OnlyTheHeadIsARoot(db: Db, id: string, r: RefreshRow)
    requires PathsOk(db) && id in db.sessions
    requires r in db.refreshes && r.sessionId == id && r.beforeRefreshHash == None
    ensures r == Chain(db.refreshes, id)[0]
  {
    var chain := Chain(db.refreshes, id);
    assert IsPath(chain);
    ChainMember(db.refreshes, id, r);
    var k :| 0 <= k < |chain| && chain[k] == r;
    OnlyTheHeadIsUnlinked(chain, k);
  }

  lemma HeadIsARoot(db: Db, id: string) returns (i: nat)
    requires PathsOk(db) && id in db.sessions
    ensures i < |db.refreshes| && Chain(db.refreshes, id) != [] && db.refreshes[i] == Chain(db.refreshes, id)[0]
    ensures db.refreshes[i].sessionId == id && db.refreshes[i].beforeRefreshHash == None
  {
    assert IsPath(Chain(db.refreshes, id));
    var head := Chain(db.refreshes, id)[0];
    ChainMember(db.refreshes, id, head);
    i :| i < |db.refreshes| && db.refreshes[i] == head;
  }

  lemma RootIsUnique(db: Db, id: string)
    requires DbOk(db) && id in db.sessions
    ensures HasOneRoot(db.refreshes, id)
  {
    hide PathsOk, RowsAgree, UniqueKeys, Chain;
    var rows := db.refreshes;
    var i := HeadIsARoot(db, id);
    forall j: nat | 0 <= j < |rows| && j != i && rows[j].sessionId == id
      ensures rows[j].beforeRefreshHash != None
    {
      if rows[j].beforeRefreshHash == None {
        OnlyTheHeadIsARoot(db, id, rows[j]);
        HashFindsOneIndex(rows, i, j);
      }
    }
  }

  lemma LinkPointsBack(db: Db, j: nat)
    requires DbOk(db) && j < |db.refreshes|
    ensures LinksPointBack(db.refreshes, j)
  {
    var rows := db.refreshes;
    var r := rows[j];
    if r.beforeRefreshHash.Some? {
      assert RowAgrees(db, r);
      var chain := Chain(rows, r.sessionId);
      assert IsPath(chain);
      ChainMember(rows, r.sessionId, r);
      var k :| 0 <= k < |chain| && chain[k] == r;
      var i, at := ChainOrder(rows, r.sessionId, k - 1, k);
      ChainMember(rows, r.sessionId, chain[k - 1]);
      HashFindsOneIndex(rows, at, j);
    }
  }

  /** In every reachable state the rows of each session form one simple path: one root, at
      most one successor each, links only to earlier rows of that session; and listed in
      insertion order each row is rotated from the one before it. */
  lemma ChainShape(iso: Isolation, actions: seq<Action>)
    ensures var db := Exec(iso, INITIAL, actions).db;
      && AtMostOneSuccessor(db.refreshes)
      && (forall id | id in db.sessions :: HasOneRoot(db.refreshes, id) && IsPath(Chain(db.refreshes, id)))
      && (forall j: nat | j < |db.refreshes| :: LinksPointBack(db.refreshes, j))
  {
    ReachableOk(iso, actions);
    var db := Exec(iso, INITIAL, actions).db;
    forall id | id in db.sessions ensures HasOneRoot(db.refreshes, id) && IsPath(Chain(db.refreshes, id)) {
      RootIsUnique(db, id);
    }
    forall j: nat | j < |db.refreshes| ensures LinksPointBack(db.refreshes, j) {
      LinkPointsBack(db, j);
    }
    forall i: nat, j: nat | i < |db.refreshes| && j < |db.refreshes| && i != j
      && db.refreshes[i].beforeRefreshHash.Some?
      ensures db.refreshes[i].beforeRefreshHash != db.refreshes[j].beforeRefreshHash
    {
      if db.refreshes[i].beforeRefreshHash == db.refreshes[j].beforeRefreshHash {
        PredecessorFindsOneIndex(db.refreshes, i, j);
      }
    }
  }
}
