/**
 Refresh-token rotation as a step machine. Any number of refresh calls interleave over the
 two tables with sign-ins and revocations; each action below is one database statement
 together with the code that runs between it and the next statement.
 */
module RefreshProtocol {
  import opened Optional
  import opened Tokens
  import opened UserTables

  /** What a transaction's plain reads see: the latest commits, or the state at its first read. */
  datatype Isolation = ReadCommitted | Snapshot

  datatype Error = ExpiredToken | InvalidToken | DuplicateToken | AlreadyRotated | ServerError

  datatype Reply =
    | Ok(access: Token, accessExpiresAt: int, refresh: Token, refreshExpiresAt: int)
    | Failed(error: Error)

  /** What a validated call goes on to do: rotate, or repeat the answer already given. */
  datatype Goal = FirstRotation | Replay(rotated: RefreshRow)

  datatype Phase =
    | LookingForRotated
    | LoadingSubmitted(goal: Goal)
    | LoadingSession(goal: Goal)
    | Inserting(access: Token, refresh: Token, row: RefreshRow)
    | LookingForWinner
    | Done(reply: Reply)

  /** One refresh request in flight; `view` is the state at its first read. */
  datatype Call = Call(token: Token, ip: Option<string>, view: Option<Db>, phase: Phase)

  datatype State = State(db: Db, calls: seq<Call>)

  /** The statements of one call, with the clock readings and random values they meet. An
      unanswered insert takes effect if it can, but its client sees an error. */
  datatype CallStep =
    | FindExisting
    | LoadSubmitted(dbNow: int)
    | LoadSession(accessNow: nat, refreshNow: nat, iv: nat)
    | Insert(report: UniqueKey)
    | InsertUnanswered
    | FindWinner
    | Fail

  datatype Action =
    | SignIn(userId: string, sessionId: string, ip: Option<string>, refreshNow: nat, iv: nat)
    | Revoke(sessionId: string)
    | Arrive(token: Token, ip: Option<string>, serverNow: nat)
    | Of(call: nat, step: CallStep)

  const INITIAL := State(EMPTY_DB, [])

  /** The row that stores `refresh`, linked to the token it was rotated from. */
  function RowFor(refresh: Token, sessionId: string, before: Option<Digest>, iv: nat): RefreshRow
    requires refresh.Jwt?
  {
    RefreshRow(sessionId, Sha256Hex(refresh), EncryptAesGcm(refresh, iv), before, refresh.exp)
  }

  /** A blank address is not stored. */
  function StoredIp(ip: Option<string>): Option<string> {
    if ip.Some? && ip.value != "" then ip else None
  }

  /** The session row of a sign-in, inserted before its root refresh row. */
  function WithSession(db: Db, userId: string, sessionId: string, ip: Option<string>): Db {
    db.(sessions := db.sessions[sessionId := SessionRow(sessionId, userId, StoredIp(ip), false)])
  }

  /** The root refresh row of a sign-in. */
  function RootRow(userId: string, sessionId: string, refreshNow: nat, iv: nat): RefreshRow {
    RowFor(Sign("refresh", userId, sessionId, refreshNow, REFRESH_TTL), sessionId, None, iv)
  }

  /** A sign-in transaction: both rows are committed together, or neither is. */
  function SignInCommit(db: Db, userId: string, sessionId: string, ip: Option<string>, refreshNow: nat, iv: nat): Db {
    if sessionId in db.sessions then db
    else
      var root := RootRow(userId, sessionId, refreshNow, iv);
      match InsertRefresh(WithSession(db, userId, sessionId, ip), root, RefreshHashKey)
      case Inserted(db') => db'
      case Duplicate(_) => db
  }

  function Admit(token: Token, ip: Option<string>, serverNow: nat): Call {
    var phase :=
      match Verify(token, serverNow)
      case Expired => Done(Failed(ExpiredToken))
      case Rejected => Done(Failed(InvalidToken))
      case Accepted => if IsRefreshToken(token) then LookingForRotated else Done(Failed(InvalidToken));
    Call(token, ip, None, phase)
  }

  function ViewOf(iso: Isolation, db: Db, c: Call): Db {
    if iso.Snapshot? && c.view.Some? then c.view.value else db
  }

  function GoalAfter(found: Option<RefreshRow>): Goal {
    if found.Some? then Replay(found.value) else FirstRotation
  }

  /** The session a validated call loads: the rotated row's, or the one its token names. */
  function SessionSought(c: Call, g: Goal): string
    requires c.token.Jwt?
  {
    match g
    case Replay(rotated) => rotated.sessionId
    case FirstRotation => c.token.sessionId
  }

  /** The session was found: answer with the rotated token, or sign a new one to insert. */
  function AfterSession(c: Call, g: Goal, session: SessionRow, accessNow: nat, refreshNow: nat, iv: nat): Phase {
    var access := Sign("access", session.userId, session.sessionId, accessNow, ACCESS_TTL);
    match g
    case Replay(rotated) =>
      Done(Ok(access, access.exp, DecryptAesGcm(rotated.refreshEncrypted), rotated.endAt))
    case FirstRotation =>
      var refresh := Sign("refresh", session.userId, session.sessionId, refreshNow, REFRESH_TTL);
      Inserting(access, refresh, RowFor(refresh, session.sessionId, Some(Sha256Hex(c.token)), iv))
  }

  /** One statement of one call. A step that does not fit the call's phase changes nothing. */
  function Advance(iso: Isolation, db: Db, c: Call, step: CallStep): (Db, Call) {
    var view := ViewOf(iso, db, c);
    var h := Sha256Hex(c.token);
    match (c.phase, step)
    case (Done(_), _) => (db, c)
    case (_, Fail) => (db, c.(phase := Done(Failed(ServerError))))
    case (LookingForRotated, FindExisting) =>
      (db, c.(view := Some(db), phase := LoadingSubmitted(GoalAfter(FindRotated(db.refreshes, h)))))
    case (LoadingSubmitted(g), LoadSubmitted(dbNow)) =>
      var found := FindSubmitted(view.refreshes, h, dbNow);
      (db, c.(phase := if found.Some? then LoadingSession(g) else Done(Failed(InvalidToken))))
    case (LoadingSession(g), LoadSession(accessNow, refreshNow, iv)) =>
      if !c.token.Jwt? then (db, c) else
      var found := FindSession(view, SessionSought(c, g), c.ip);
      (db, c.(phase := if found.Some? then AfterSession(c, g, found.value, accessNow, refreshNow, iv)
                       else Done(Failed(InvalidToken))))
    case (Inserting(access, refresh, row), Insert(report)) =>
      (match InsertRefresh(db, row, report)
       case Inserted(db') =>
         if access.Jwt? && refresh.Jwt? then (db', c.(phase := Done(Ok(access, access.exp, refresh, refresh.exp))))
         else (db, c)
       case Duplicate(BeforeRefreshHashKey) => (db, c.(phase := LookingForWinner))
       case Duplicate(RefreshHashKey) => (db, c.(phase := Done(Failed(DuplicateToken)))))
    case (Inserting(_, _, row), InsertUnanswered) =>
      var result := InsertRefresh(db, row, RefreshHashKey);
      (if result.Inserted? then result.db else db, c.(phase := Done(Failed(ServerError))))
    case (LookingForWinner, FindWinner) =>
      var found := FindRotated(view.refreshes, h);
      (db, c.(phase := if found.Some? then LoadingSubmitted(Replay(found.value)) else Done(Failed(AlreadyRotated))))
    case _ => (db, c)
  }

  function Step(iso: Isolation, s: State, a: Action): State {
    match a
    case SignIn(userId, sessionId, ip, refreshNow, iv) =>
      s.(db := SignInCommit(s.db, userId, sessionId, ip, refreshNow, iv))
    case Revoke(id) =>
      if id !in s.db.sessions then s
      else s.(db := s.db.(sessions := s.db.sessions[id := s.db.sessions[id].(isDelete := true)]))
    case Arrive(token, ip, serverNow) =>
      s.(calls := s.calls + [Admit(token, ip, serverNow)])
    case Of(i, step) =>
      if i >= |s.calls| then s else
      var (db, c) := Advance(iso, s.db, s.calls[i], step);
      State(db, s.calls[i := c])
  }

  /** The state after a whole schedule of actions. */
  function Exec(iso: Isolation, s: State, actions: seq<Action>): State
    decreases |actions|
  {
    if actions == [] then s else Exec(iso, Step(iso, s, actions[0]), actions[1..])
  }

  lemma {:induction false} ExecAppend(iso: Isolation, s: State, xs: seq<Action>, ys: seq<Action>)
    ensures Exec(iso, s, xs + ys) == Exec(iso, Exec(iso, s, xs), ys)
    decreases |xs|
  {
    if xs == [] {
      assert xs + ys == ys;
    } else {
      assert (xs + ys)[0] == xs[0] && (xs + ys)[1..] == xs[1..] + ys;
      ExecAppend(iso, Step(iso, s, xs[0]), xs[1..], ys);
    }
  }
}
