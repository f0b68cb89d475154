/**
 What every reachable state of the rotation machine keeps: the tables agree with the tokens
 they store, each session's rows form one path, and each call in flight knows only facts
 that later commits cannot undo.
 */
module RefreshInvariant {
  import opened Optional
  import opened Tokens
  import opened UserTables
  import opened RefreshProtocol

  /** A row's columns agree with the token it stores and with its session's user. */
  ghost predicate RowAgrees(db: Db, r: RefreshRow) {
    && r.sessionId in db.sessions
    && var t := DecryptAesGcm(r.refreshEncrypted);
    && Names(t, "refresh", db.sessions[r.sessionId].userId, r.sessionId, r.endAt)
    && r.refreshHash == Sha256Hex(t)
    && t.exp == t.iat + REFRESH_TTL
  }

  ghost predicate UniqueKeys(rows: seq<RefreshRow>) {
    forall i, j | 0 <= i < j < |rows| ::
      && rows[i].refreshHash != rows[j].refreshHash
      && (rows[i].beforeRefreshHash.Some? ==> rows[i].beforeRefreshHash != rows[j].beforeRefreshHash)
  }

  /** A root, then each row rotated from the row just before it. */
  ghost predicate IsPath(chain: seq<RefreshRow>) {
    && |chain| > 0
    && chain[0].beforeRefreshHash == None
    && forall k | 0 < k < |chain| :: chain[k].beforeRefreshHash == Some(chain[k - 1].refreshHash)
  }

  ghost predicate SessionsKeyed(db: Db) {
    forall id | id in db.sessions :: db.sessions[id].sessionId == id
  }

  ghost predicate RowsAgree(db: Db) {
    forall r | r in db.refreshes :: RowAgrees(db, r)
  }

  ghost predicate PathsOk(db: Db) {
    forall id | id in db.sessions :: IsPath(Chain(db.refreshes, id))
  }

  ghost predicate DbOk(db: Db) {
    SessionsKeyed(db) && RowsAgree(db) && UniqueKeys(db.refreshes) && PathsOk(db)
  }

  /** `db` is `v` after more commits: rows are only appended, sessions only added or revoked. */
  ghost predicate Older(v: Db, db: Db) {
    && v.refreshes <= db.refreshes
    && forall id | id in v.sessions ::
         && id in db.sessions
         && (db.sessions[id] == v.sessions[id] || db.sessions[id] == v.sessions[id].(isDelete := true))
  }

  /** A rotation's new row and tokens, all for the submitted token's user and session. */
  ghost predicate NewRowFits(db: Db, c: Call, access: Token, refresh: Token, row: RefreshRow)
    requires c.token.Jwt?
  {
    && RowAgrees(db, row)
    && row.sessionId == c.token.sessionId
    && row.beforeRefreshHash == Some(Sha256Hex(c.token))
    && DecryptAesGcm(row.refreshEncrypted) == refresh
    && refresh.Jwt? && refresh.userId == c.token.userId
    && access.Jwt? && Names(access, "access", c.token.userId, c.token.sessionId, access.exp)
    && access.exp == access.iat + ACCESS_TTL
  }

  ghost predicate GoalOk(db: Db, c: Call, g: Goal)
    requires c.view.Some?
  {
    match g
    case Replay(r) => r in db.refreshes && r.beforeRefreshHash == Some(Sha256Hex(c.token))
    case FirstRotation => !HasRotated(c.view.value.refreshes, Sha256Hex(c.token))
  }

  /** A successful answer repeats the one row rotated from the submitted token. */
  ghost predicate ReplyOk(db: Db, token: Token, reply: Reply)
    requires reply.Ok?
  {
    && token.Jwt?
    && Names(reply.access, "access", token.userId, token.sessionId, reply.accessExpiresAt)
    && reply.access.exp == reply.access.iat + ACCESS_TTL
    && Names(reply.refresh, "refresh", token.userId, token.sessionId, reply.refreshExpiresAt)
    && exists r :: r in db.refreshes && r.beforeRefreshHash == Some(Sha256Hex(token))
         && DecryptAesGcm(r.refreshEncrypted) == reply.refresh
  }

  ghost predicate PhaseOk(db: Db, c: Call) {
    match c.phase
    case Done(reply) => reply.Ok? ==> ReplyOk(db, c.token, reply)
    case LookingForRotated => IsRefreshToken(c.token) && c.view == None
    case LoadingSubmitted(g) => IsRefreshToken(c.token) && c.view.Some? && GoalOk(db, c, g)
    case LoadingSession(g) =>
      IsRefreshToken(c.token) && c.view.Some? && GoalOk(db, c, g) && HasHash(db.refreshes, Sha256Hex(c.token))
    case Inserting(access, refresh, row) =>
      && IsRefreshToken(c.token) && c.view.Some? && GoalOk(db, c, FirstRotation)
      && HasHash(db.refreshes, Sha256Hex(c.token))
      && NewRowFits(db, c, access, refresh, row)
    case LookingForWinner =>
      && IsRefreshToken(c.token) && c.view.Some? && GoalOk(db, c, FirstRotation)
      && HasHash(db.refreshes, Sha256Hex(c.token))
      && HasRotated(db.refreshes, Sha256Hex(c.token))
  }

  ghost predicate CallOk(db: Db, c: Call) {
    && (c.view.Some? ==> Older(c.view.value, db) && DbOk(c.view.value))
    && PhaseOk(db, c)
  }

  ghost predicate StateOk(s: State) {
    DbOk(s.db) && forall c | c in s.calls :: CallOk(s.db, c)
  }

  // ---------------------------------------------------------------- the tables

  /** The row that stores a token belongs to the session and user the token names. */
  lemma StoredTokenNamesItsRow(db: Db, r: RefreshRow, token: Token)
    requires RowsAgree(db) && r in db.refreshes && r.refreshHash == Sha256Hex(token)
    ensures DecryptAesGcm(r.refreshEncrypted) == token
    ensures r.sessionId in db.sessions
    ensures Names(token, "refresh", db.sessions[r.sessionId].userId, r.sessionId, r.endAt)
  {
    assert RowAgrees(db, r);
  }

  /** A rotated row follows, in its own session's path, the row it was rotated from. */
  lemma PredecessorOf(db: Db, r: RefreshRow, h: Digest) returns (before: RefreshRow)
    requires RowsAgree(db) && PathsOk(db) && r in db.refreshes && r.beforeRefreshHash == Some(h)
    ensures before in db.refreshes && before.sessionId == r.sessionId && before.refreshHash == h
  {
    assert RowAgrees(db, r);
    var chain := Chain(db.refreshes, r.sessionId);
    ChainMember(db.refreshes, r.sessionId, r);
    var k :| 0 <= k < |chain| && chain[k] == r;
    assert IsPath(chain);
    before := chain[k - 1];
    ChainMember(db.refreshes, r.sessionId, before);
  }

  /** A rotated row is of the session that the token it was rotated from names. */
  lemma RotatedRowKeepsTheSession(db: Db, r: RefreshRow, token: Token)
    requires RowsAgree(db) && PathsOk(db) && r in db.refreshes && r.beforeRefreshHash == Some(Sha256Hex(token))
    ensures token.Jwt? && r.sessionId == token.sessionId && r.sessionId in db.sessions
    ensures db.sessions[r.sessionId].userId == token.userId
    ensures HasHash(db.refreshes, Sha256Hex(token))
  {
    var before := PredecessorOf(db, r, Sha256Hex(token));
    StoredTokenNamesItsRow(db, before, token);
  }

  /** Only the last row of a path has no successor. */
  lemma TipIsLast(rows: seq<RefreshRow>, id: string, k: nat)
    requires IsPath(Chain(rows, id)) && k < |Chain(rows, id)|
    requires !HasRotated(rows, Chain(rows, id)[k].refreshHash)
    ensures k == |Chain(rows, id)| - 1
  {
    var chain := Chain(rows, id);
    if k + 1 < |chain| {
      ChainMember(rows, id, chain[k + 1]);
      assert false;
    }
  }

  lemma UniqueKeysAppend(rows: seq<RefreshRow>, r: RefreshRow)
    requires UniqueKeys(rows) && !HasHash(rows, r.refreshHash) && !ClashesBefore(rows, r)
    ensures UniqueKeys(rows + [r])
  {
    forall i, j | 0 <= i < j < |rows + [r]|
      ensures (rows + [r])[i].refreshHash != (rows + [r])[j].refreshHash
      ensures (rows + [r])[i].beforeRefreshHash.Some? ==>
                (rows + [r])[i].beforeRefreshHash != (rows + [r])[j].beforeRefreshHash
    {
      assert rows[i] in rows;
      if j == |rows| && rows[i].beforeRefreshHash.Some? {
        assert rows[i].beforeRefreshHash == r.beforeRefreshHash ==> HasRotated(rows, r.beforeRefreshHash.value);
      }
    }
  }

  lemma RowsAgreeAppend(db: Db, r: RefreshRow)
    requires RowsAgree(db) && RowAgrees(db, r)
    ensures RowsAgree(db.(refreshes := db.refreshes + [r]))
  {
    var db' := db.(refreshes := db.refreshes + [r]);
    forall x | x in db'.refreshes ensures RowAgrees(db', x) {
      assert x == r || x in db.refreshes;
      assert RowAgrees(db, x);
    }
  }

  /** A rotation extends its session's path at the tip and touches no other path. */
  lemma PathsOkAppend(db: Db, row: RefreshRow, token: Token)
    requires RowsAgree(db) && PathsOk(db)
    requires token.Jwt? && row.sessionId == token.sessionId
    requires row.beforeRefreshHash == Some(Sha256Hex(token)) && HasHash(db.refreshes, Sha256Hex(token))
    requires !HasRotated(db.refreshes, Sha256Hex(token))
    ensures PathsOk(db.(refreshes := db.refreshes + [row]))
  {
    var submitted :| submitted in db.refreshes && submitted.refreshHash == Sha256Hex(token);
    StoredTokenNamesItsRow(db, submitted, token);
    forall id | id in db.sessions ensures IsPath(Chain(db.refreshes + [row], id)) {
      ChainOfAppend(db.refreshes, row, id);
      var chain := Chain(db.refreshes, id);
      assert IsPath(chain);
      if id == row.sessionId {
        ChainMember(db.refreshes, id, submitted);
        var k :| 0 <= k < |chain| && chain[k] == submitted;
        TipIsLast(db.refreshes, id, k);
      }
    }
  }

  /** Inserting a rotation of a stored token keeps the tables sound. */
  lemma RotationKeepsDb(db: Db, row: RefreshRow, token: Token)
    requires DbOk(db) && RowAgrees(db, row)
    requires token.Jwt? && row.sessionId == token.sessionId
    requires row.beforeRefreshHash == Some(Sha256Hex(token)) && HasHash(db.refreshes, Sha256Hex(token))
    requires !HasHash(db.refreshes, row.refreshHash) && !ClashesBefore(db.refreshes, row)
    ensures DbOk(db.(refreshes := db.refreshes + [row]))
  {
    UniqueKeysAppend(db.refreshes, row);
    RowsAgreeAppend(db, row);
    PathsOkAppend(db, row, token);
  }

  /** A sign-in under a new session id never meets a unique key. */
  lemma SignInIsNeverRefused(db: Db, userId: string, id: string, ip: Option<string>, now: nat, iv: nat)
    requires RowsAgree(db) && id !in db.sessions
    ensures SignInCommit(db, userId, id, ip, now, iv) ==
      Db(WithSession(db, userId, id, ip).sessions, db.refreshes + [RootRow(userId, id, now, iv)])
    ensures !HasHash(db.refreshes, RootRow(userId, id, now, iv).refreshHash)
  {
    var row := RootRow(userId, id, now, iv);
    forall r | r in db.refreshes ensures r.refreshHash != row.refreshHash {
      assert RowAgrees(db, r);
    }
  }

  lemma UnknownSessionHasNoRows(db: Db, id: string)
    requires RowsAgree(db) && id !in db.sessions
    ensures Chain(db.refreshes, id) == []
  {
    forall r | r in db.refreshes ensures r.sessionId != id {
      assert RowAgrees(db, r);
    }
    if Chain(db.refreshes, id) != [] {
      ChainMember(db.refreshes, id, Chain(db.refreshes, id)[0]);
      assert false;
    }
  }

  /** A new session starts a path of its own. */
  lemma SignInKeepsPaths(db: Db, userId: string, id: string, ip: Option<string>, now: nat, iv: nat)
    requires RowsAgree(db) && PathsOk(db) && id !in db.sessions
    ensures PathsOk(Db(WithSession(db, userId, id, ip).sessions, db.refreshes + [RootRow(userId, id, now, iv)]))
  {
    var row := RootRow(userId, id, now, iv);
    forall k | k in db.sessions || k == id ensures IsPath(Chain(db.refreshes + [row], k)) {
      ChainOfAppend(db.refreshes, row, k);
      if k == id {
        UnknownSessionHasNoRows(db, id);
      } else {
        assert IsPath(Chain(db.refreshes, k));
      }
    }
  }

  lemma SignInKeepsDb(db: Db, userId: string, id: string, ip: Option<string>, now: nat, iv: nat)
    requires DbOk(db) && id !in db.sessions
    ensures DbOk(SignInCommit(db, userId, id, ip, now, iv))
  {
    var row := RootRow(userId, id, now, iv);
    SignInIsNeverRefused(db, userId, id, ip, now, iv);
    SignInKeepsPaths(db, userId, id, ip, now, iv);
    UniqueKeysAppend(db.refreshes, row);
    var mid := WithSession(db, userId, id, ip);
    forall r | r in mid.refreshes ensures RowAgrees(mid, r) {
      assert RowAgrees(db, r);
    }
    RowsAgreeAppend(mid, row);
  }

  lemma RevokeKeepsDb(db: Db, id: string)
    requires DbOk(db) && id in db.sessions
    ensures DbOk(db.(sessions := db.sessions[id := db.sessions[id].(isDelete := true)]))
  {
    var db' := db.(sessions := db.sessions[id := db.sessions[id].(isDelete := true)]);
    forall r | r in db'.refreshes ensures RowAgrees(db', r) {
      assert RowAgrees(db, r);
    }
    forall k | k in db'.sessions ensures IsPath(Chain(db'.refreshes, k)) {
      assert IsPath(Chain(db.refreshes, k));
    }
  }

  // ---------------------------------------------------------------- the calls

  lemma OlderTrans(a: Db, b: Db, c: Db)
    requires Older(a, b) && Older(b, c)
    ensures Older(a, c)
  {
  }

  /** What a call knows stays true however many commits follow. */
  lemma CallSurvives(db: Db, db': Db, c: Call)
    requires CallOk(db, c) && Older(db, db')
    ensures CallOk(db', c)
  {
    assert forall r | r in db.refreshes :: r in db'.refreshes;
    match c.phase
    case Inserting(access, refresh, row) =>
      assert RowAgrees(db, row);
    case Done(reply) =>
      if reply.Ok? {
        var r :| r in db.refreshes && r.beforeRefreshHash == Some(Sha256Hex(c.token))
          && DecryptAesGcm(r.refreshEncrypted) == reply.refresh;
        assert r in db'.refreshes;
      }
    case _ =>
  }

  /** Replaying a rotated row answers with that row's token, for the submitter's session. */
  lemma ReplayReplyOk(db: Db, c: Call, rotated: RefreshRow, session: SessionRow, accessNow: nat, refreshNow: nat,
      iv: nat)
    requires DbOk(db) && CallOk(db, c) && c.phase == LoadingSession(Replay(rotated))
    requires rotated.sessionId in db.sessions
    requires session == db.sessions[rotated.sessionId].(isDelete := session.isDelete)
    ensures var p := AfterSession(c, Replay(rotated), session, accessNow, refreshNow, iv);
      p.Done? && p.reply.Ok? && ReplyOk(db, c.token, p.reply)
  {
    RotatedRowKeepsTheSession(db, rotated, c.token);
    assert RowAgrees(db, rotated);
  }

  /** A first rotation builds a row for the submitter's own session and user. */
  lemma FirstRotationFits(db: Db, c: Call, session: SessionRow, accessNow: nat, refreshNow: nat, iv: nat)
    requires DbOk(db) && CallOk(db, c) && c.phase == LoadingSession(FirstRotation)
    requires c.token.sessionId in db.sessions
    requires session == db.sessions[c.token.sessionId].(isDelete := session.isDelete)
    ensures var p := AfterSession(c, FirstRotation, session, accessNow, refreshNow, iv);
      p.Inserting? && NewRowFits(db, c, p.access, p.refresh, p.row)
  {
    var submitted :| submitted in db.refreshes && submitted.refreshHash == Sha256Hex(c.token);
    StoredTokenNamesItsRow(db, submitted, c.token);
  }

  lemma LoadSessionKeepsCall(iso: Isolation, db: Db, c: Call, step: CallStep)
    requires DbOk(db) && CallOk(db, c) && c.phase.LoadingSession? && step.LoadSession?
    ensures Advance(iso, db, c, step).0 == db && CallOk(db, Advance(iso, db, c, step).1)
  {
    var g := c.phase.goal;
    var view := ViewOf(iso, db, c);
    var found := FindSession(view, SessionSought(c, g), c.ip);
    if found.Some? {
      assert Older(view, db);
      var id := SessionSought(c, g);
      assert id in view.sessions && id in db.sessions;
      assert found.value == db.sessions[id].(isDelete := found.value.isDelete);
      match g
      case Replay(rotated) => ReplayReplyOk(db, c, rotated, found.value, step.accessNow, step.refreshNow, step.iv);
      case FirstRotation => FirstRotationFits(db, c, found.value, step.accessNow, step.refreshNow, step.iv);
    }
  }

  /** The winner of the race answers with the row it has just inserted. */
  lemma InsertedReplyOk(db: Db, c: Call)
    requires c.phase.Inserting? && CallOk(db, c)
    ensures var Inserting(access, refresh, row) := c.phase;
      ReplyOk(db.(refreshes := db.refreshes + [row]), c.token, Ok(access, access.exp, refresh, refresh.exp))
  {
    var row := c.phase.row;
    assert row in db.refreshes + [row];
  }

  lemma WinnerKeeps(iso: Isolation, db: Db, c: Call, report: UniqueKey)
    requires DbOk(db) && c.phase.Inserting? && CallOk(db, c)
    requires InsertRefresh(db, c.phase.row, report).Inserted?
    ensures var db' := db.(refreshes := db.refreshes + [c.phase.row]);
      Advance(iso, db, c, Insert(report)).0 == db' && DbOk(db')
      && Older(db, db') && CallOk(db', Advance(iso, db, c, Insert(report)).1)
  {
    var db' := db.(refreshes := db.refreshes + [c.phase.row]);
    RotationKeepsDb(db, c.phase.row, c.token);
    InsertedReplyOk(db, c);
    OlderTrans(c.view.value, db, db');
  }

  lemma LoserKeeps(iso: Isolation, db: Db, c: Call, report: UniqueKey)
    requires DbOk(db) && c.phase.Inserting? && CallOk(db, c)
    requires InsertRefresh(db, c.phase.row, report).Duplicate?
    ensures Advance(iso, db, c, Insert(report)).0 == db && CallOk(db, Advance(iso, db, c, Insert(report)).1)
  {
  }

  lemma UnansweredKeeps(iso: Isolation, db: Db, c: Call)
    requires DbOk(db) && c.phase.Inserting? && CallOk(db, c)
    ensures var (db', c') := Advance(iso, db, c, InsertUnanswered);
      DbOk(db') && Older(db, db') && CallOk(db', c')
  {
    hide DbOk, AfterSession;
    if InsertRefresh(db, c.phase.row, RefreshHashKey).Inserted? {
      WinnerKeeps(iso, db, c, RefreshHashKey);
    }
  }

  lemma FindWinnerKeepsCall(iso: Isolation, db: Db, c: Call)
    requires DbOk(db) && CallOk(db, c) && c.phase.LookingForWinner?
    ensures Advance(iso, db, c, FindWinner).0 == db && CallOk(db, Advance(iso, db, c, FindWinner).1)
  {
    assert Older(ViewOf(iso, db, c), db);
  }

  lemma FindExistingKeepsCall(iso: Isolation, db: Db, c: Call)
    requires DbOk(db) && CallOk(db, c) && c.phase.LookingForRotated?
    ensures Advance(iso, db, c, FindExisting).0 == db && CallOk(db, Advance(iso, db, c, FindExisting).1)
  {
    hide DbOk;
  }

  lemma LoadSubmittedKeepsCall(iso: Isolation, db: Db, c: Call, dbNow: int)
    requires DbOk(db) && CallOk(db, c) && c.phase.LoadingSubmitted?
    ensures Advance(iso, db, c, LoadSubmitted(dbNow)).0 == db
    ensures CallOk(db, Advance(iso, db, c, LoadSubmitted(dbNow)).1)
  {
    hide DbOk;
    assert Older(ViewOf(iso, db, c), db);
  }

  lemma OtherStepKeepsCall(iso: Isolation, db: Db, c: Call, step: CallStep)
    requires CallOk(db, c)
    requires !(c.phase.LookingForRotated? && step.FindExisting?) && !(c.phase.LoadingSubmitted? && step.LoadSubmitted?)
    requires !(c.phase.LoadingSession? && step.LoadSession?)
    requires !(c.phase.Inserting? && (step.Insert? || step.InsertUnanswered?))
    requires !(c.phase.LookingForWinner? && step.FindWinner?)
    ensures Advance(iso, db, c, step).0 == db && CallOk(db, Advance(iso, db, c, step).1)
  {
    hide DbOk, Older;
  }

  lemma AdvanceKeeps(iso: Isolation, db: Db, c: Call, step: CallStep)
    requires DbOk(db) && CallOk(db, c)
    ensures var (db', c') := Advance(iso, db, c, step);
      DbOk(db') && Older(db, db') && CallOk(db', c')
  {
    hide DbOk, PhaseOk, FindSession, FindSubmitted, FindRotated, AfterSession;
    match (c.phase, step)
    case (LoadingSession(_), LoadSession(_, _, _)) => LoadSessionKeepsCall(iso, db, c, step);
    case (Inserting(_, _, row), Insert(report)) =>
      if InsertRefresh(db, row, report).Inserted? {
        WinnerKeeps(iso, db, c, report);
      } else {
        LoserKeeps(iso, db, c, report);
      }
    case (Inserting(_, _, _), InsertUnanswered) => UnansweredKeeps(iso, db, c);
    case (LookingForWinner, FindWinner) => FindWinnerKeepsCall(iso, db, c);
    case (LoadingSubmitted(_), LoadSubmitted(dbNow)) => LoadSubmittedKeepsCall(iso, db, c, dbNow);
    case (LookingForRotated, FindExisting) => FindExistingKeepsCall(iso, db, c);
    case _ => OtherStepKeepsCall(iso, db, c, step);
  }

  // ---------------------------------------------------------------- the runs

  lemma StepKeeps(iso: Isolation, s: State, a: Action)
    requires StateOk(s)
    ensures StateOk(Step(iso, s, a)) && Older(s.db, Step(iso, s, a).db)
  {
    var s' := Step(iso, s, a);
    match a {
      case SignIn(userId, id, ip, now, iv) =>
        if id !in s.db.sessions { SignInKeepsDb(s.db, userId, id, ip, now, iv); }
      case Revoke(id) =>
        if id in s.db.sessions { RevokeKeepsDb(s.db, id); }
      case Arrive(token, ip, now) =>
      case Of(i, step) =>
        if i < |s.calls| { AdvanceKeeps(iso, s.db, s.calls[i], step); }
    }
    assert Older(s.db, s'.db);
    forall c | c in s'.calls ensures CallOk(s'.db, c) {
      if c in s.calls { CallSurvives(s.db, s'.db, c); }
    }
  }

  /** Every schedule of sign-ins, revocations and call steps keeps the invariant. */
  lemma {:induction false} ExecKeeps(iso: Isolation, s: State, actions: seq<Action>)
    requires StateOk(s)
    ensures StateOk(Exec(iso, s, actions))
    ensures Older(s.db, Exec(iso, s, actions).db)
    decreases |actions|
  {
    if actions != [] {
      StepKeeps(iso, s, actions[0]);
      ExecKeeps(iso, Step(iso, s, actions[0]), actions[1..]);
    }
  }

  lemma InitialOk()
    ensures StateOk(INITIAL)
  {
  }
}
