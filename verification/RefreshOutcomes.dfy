/**
 How single refresh calls end: exactly when an insert is refused, exactly when the loser of
 a race recovers, and what a revoked session still allows.
 */
module RefreshOutcomes {
  import opened Optional
  import opened Tokens
  import opened UserTables
  import opened RefreshProtocol
  import opened RefreshInvariant
  import opened RefreshTheorems

  // ---------------------------------------------------------------- what is signed, and when

  /** A call that passes its session look-up signs an access token in the second it meets, for
      20 minutes; a first rotation also signs a refresh token, for one day, and is about to
      insert the row that stores it. */
  lemma SessionLookUpSignsNow(iso: Isolation, s: State, i: nat, accessNow: nat, refreshNow: nat, iv: nat)
    requires StateOk(s) && i < |s.calls| && s.calls[i].phase.LoadingSession?
    ensures s.calls[i].token.Jwt?
    ensures var token := s.calls[i].token;
      var access := Jwt("access", token.userId, token.sessionId, accessNow, accessNow + 1200);
      match Step(iso, s, Of(i, LoadSession(accessNow, refreshNow, iv))).calls[i].phase
      case Done(Ok(signed, expiresAt, _, _)) => signed == access && expiresAt == accessNow + 1200
      case Inserting(signed, refresh, row) =>
        && signed == access
        && refresh == Jwt("refresh", token.userId, token.sessionId, refreshNow, refreshNow + 86400)
        && row == RefreshRow(token.sessionId, Sha256Hex(refresh), row.refreshEncrypted, Some(Sha256Hex(token)),
                             refreshNow + 86400)
        && DecryptAesGcm(row.refreshEncrypted) == refresh
      case phase => phase == Done(Failed(InvalidToken))
  {
    hide Exec;
    var c := s.calls[i];
    assert CallOk(s.db, c);
    StepKeeps(iso, s, Of(i, LoadSession(accessNow, refreshNow, iv)));
    assert CallOk(s.db, Step(iso, s, Of(i, LoadSession(accessNow, refreshNow, iv))).calls[i]);
  }

  /** An insert that succeeds answers with the two tokens signed before it, and their expiries. */
  lemma InsertAnswersWithTheSignedTokens(iso: Isolation, s: State, i: nat, report: UniqueKey)
    requires i < |s.calls| && s.calls[i].phase.Inserting?
    ensures var phase := Step(iso, s, Of(i, Insert(report))).calls[i].phase;
      var Inserting(access, refresh, row) := s.calls[i].phase;
      phase.Done? && phase.reply.Ok? ==>
        access.Jwt? && refresh.Jwt? && phase.reply == Ok(access, access.exp, refresh, refresh.exp)
  {
  }

  // ---------------------------------------------------------------- the address

  /** A session created from some address accepts requests from that address and from unknown
      ones, and from no other; one created without an address accepts only unknown ones. */
  lemma SessionRemembersItsAddress(iso: Isolation, s: State, userId: string, id: string, ip: Option<string>, now: nat,
                                   iv: nat, token: Token, from: Option<string>)
    requires StateOk(s) && id !in s.db.sessions && token.Jwt? && token.sessionId == id
    ensures SessionAccepts(Step(iso, s, SignIn(userId, id, ip, now, iv)).db, token, from) <==>
      from == None || from == Some("") || from == ip
  {
    SignInIsNeverRefused(s.db, userId, id, ip, now, iv);
  }

  // ---------------------------------------------------------------- refused inserts

  /** Some refresh token of this session was signed in second `iat`. */
  ghost predicate SignedInSecond(db: Db, sessionId: string, iat: int) {
    exists r :: r in db.refreshes && r.sessionId == sessionId
      && DecryptAesGcm(r.refreshEncrypted).Jwt? && DecryptAesGcm(r.refreshEncrypted).iat == iat
  }

  /** A new refresh token repeats a stored digest exactly when some token of the session was
      signed in the same second: the claims hold nothing else that could differ. */
  lemma DigestRepeatsWithinASecond(db: Db, c: Call)
    requires DbOk(db) && c.phase.Inserting? && CallOk(db, c)
    ensures c.token.Jwt? && c.phase.refresh.Jwt?
    ensures HasHash(db.refreshes, c.phase.row.refreshHash) <==>
            SignedInSecond(db, c.token.sessionId, c.phase.refresh.iat)
  {
    var row, refresh := c.phase.row, c.phase.refresh;
    forall r | r in db.refreshes
      ensures r.refreshHash == row.refreshHash <==>
              r.sessionId == c.token.sessionId && DecryptAesGcm(r.refreshEncrypted).Jwt?
              && DecryptAesGcm(r.refreshEncrypted).iat == refresh.iat
    {
      assert RowAgrees(db, r);
    }
  }

  /** The insert of a first rotation succeeds exactly when no rotation of the submitted token
      is stored and no token of the session was signed in the same second. Otherwise the call
      enters the replay path exactly when the server reports the predecessor key. */
  lemma InsertOutcomes(iso: Isolation, s: State, i: nat, report: UniqueKey)
    requires StateOk(s) && i < |s.calls| && s.calls[i].phase.Inserting?
    ensures s.calls[i].token.Jwt? && s.calls[i].phase.refresh.Jwt?
    ensures var c := s.calls[i];
      var rotated := HasRotated(s.db.refreshes, Sha256Hex(c.token));
      var repeated := SignedInSecond(s.db, c.token.sessionId, c.phase.refresh.iat);
      var phase := Step(iso, s, Of(i, Insert(report))).calls[i].phase;
      && (phase.Done? && phase.reply.Ok? <==> !rotated && !repeated)
      && (phase == LookingForWinner <==> rotated && (repeated ==> report == BeforeRefreshHashKey))
      && (phase == Done(Failed(DuplicateToken)) <==> repeated && (rotated ==> report == RefreshHashKey))
  {
    assert CallOk(s.db, s.calls[i]);
    DigestRepeatsWithinASecond(s.db, s.calls[i]);
  }

  /** A token refreshed within the second it was signed in is never rotated: its own row
      already holds the digest of the token the call signs. */
  lemma RefreshInTheSigningSecondFails(iso: Isolation, s: State, i: nat, report: UniqueKey)
    requires StateOk(s) && i < |s.calls| && s.calls[i].phase.Inserting?
    requires s.calls[i].phase.refresh.Jwt? && s.calls[i].token.Jwt?
    requires s.calls[i].phase.refresh.iat == s.calls[i].token.iat
    ensures !Step(iso, s, Of(i, Insert(report))).calls[i].phase.Done?
         || Step(iso, s, Of(i, Insert(report))).calls[i].phase.reply == Failed(DuplicateToken)
  {
    var c := s.calls[i];
    assert CallOk(s.db, c);
    var submitted :| submitted in s.db.refreshes && submitted.refreshHash == Sha256Hex(c.token);
    StoredTokenNamesItsRow(s.db, submitted, c.token);
    assert SignedInSecond(s.db, c.token.sessionId, c.phase.refresh.iat);
    InsertOutcomes(iso, s, i, report);
  }

  // ---------------------------------------------------------------- the loser of a race

  predicate Leaves(actions: seq<Action>, i: nat) {
    forall a | a in actions :: !(a.Of? && a.call == i)
  }

  /** Other calls' steps leave a call as it was. */
  lemma {:induction false} Untouched(iso: Isolation, s: State, actions: seq<Action>, i: nat)
    requires i < |s.calls| && Leaves(actions, i)
    ensures i < |Exec(iso, s, actions).calls| && Exec(iso, s, actions).calls[i] == s.calls[i]
    decreases |actions|
  {
    if actions != [] {
      var s' := Step(iso, s, actions[0]);
      assert actions[0] in actions;
      assert i < |s'.calls| && s'.calls[i] == s.calls[i];
      assert forall a | a in actions[1..] :: a in actions;
      Untouched(iso, s', actions[1..], i);
    }
  }

  /** The loser finds the winner's row exactly under committed reads. A snapshot was taken
      while no rotation existed, so under snapshots every loser ends with the conflict error. */
  lemma LoserFindsWinnerIffCommittedReads(iso: Isolation, s: State, i: nat)
    requires StateOk(s) && i < |s.calls| && s.calls[i].phase == LookingForWinner
    ensures var phase := Step(iso, s, Of(i, FindWinner)).calls[i].phase;
      && (phase != Done(Failed(AlreadyRotated)) <==> iso == ReadCommitted)
      && (iso == ReadCommitted ==>
            && phase.LoadingSubmitted? && phase.goal.Replay? && phase.goal.rotated in s.db.refreshes
            && phase.goal.rotated.beforeRefreshHash == Some(Sha256Hex(s.calls[i].token)))
  {
    assert CallOk(s.db, s.calls[i]);
  }

  /** What revalidation asks of the tables, in terms of the submitted token alone. */
  predicate SessionAccepts(db: Db, token: Token, ip: Option<string>)
    requires token.Jwt?
  {
    && token.sessionId in db.sessions
    && !db.sessions[token.sessionId].isDelete
    && AddressMatches(db.sessions[token.sessionId], ip)
  }

  /** Loading the submitted row succeeds exactly when the call's reads show it stored and the
      submitted token is unexpired by the database clock. */
  lemma SubmittedFoundIffStoredAndUnexpired(iso: Isolation, s: State, i: nat, dbNow: int)
    requires StateOk(s) && i < |s.calls| && s.calls[i].phase.LoadingSubmitted?
    ensures s.calls[i].token.Jwt?
    ensures var c := s.calls[i];
      var stored := HasHash(ViewOf(iso, s.db, c).refreshes, Sha256Hex(c.token));
      Step(iso, s, Of(i, LoadSubmitted(dbNow))).calls[i].phase ==
      if stored && dbNow < c.token.exp then LoadingSession(c.phase.goal) else Done(Failed(InvalidToken))
  {
    var c := s.calls[i];
    assert CallOk(s.db, c);
    var view := ViewOf(iso, s.db, c);
    if HasHash(view.refreshes, Sha256Hex(c.token)) {
      var submitted :| submitted in view.refreshes && submitted.refreshHash == Sha256Hex(c.token);
      StoredTokenNamesItsRow(view, submitted, c.token);
    }
    forall r | r in view.refreshes && r.refreshHash == Sha256Hex(c.token) ensures r.endAt == c.token.exp {
      StoredTokenNamesItsRow(view, r, c.token);
    }
  }

  /** A replay with a loaded row answers exactly when the call's reads show the submitter's
      session live and accepting the address. */
  lemma ReplayAnswersIffAccepted(iso: Isolation, s: State, i: nat, rotated: RefreshRow, accessNow: nat,
      refreshNow: nat, iv: nat)
    requires StateOk(s) && i < |s.calls| && s.calls[i].phase == LoadingSession(Replay(rotated))
    ensures s.calls[i].token.Jwt?
    ensures var phase := Step(iso, s, Of(i, LoadSession(accessNow, refreshNow, iv))).calls[i].phase;
      var view := ViewOf(iso, s.db, s.calls[i]);
      && phase.Done?
      && (phase.reply.Ok? <==> SessionAccepts(view, s.calls[i].token, s.calls[i].ip))
      && (phase.reply.Ok? ==> phase.reply.refresh == DecryptAesGcm(rotated.refreshEncrypted)
                              && phase.reply.refreshExpiresAt == rotated.endAt)
      && (phase.reply.Failed? ==> phase.reply.error == InvalidToken)
  {
    assert CallOk(s.db, s.calls[i]);
    RotatedRowKeepsTheSession(s.db, rotated, s.calls[i].token);
  }

  /** The state just before a call's next statement, after other requests have run `env`. */
  function Later(s: State, env: seq<Action>): State {
    Exec(ReadCommitted, s, env)
  }

  lemma LaterOk(s: State, i: nat, env: seq<Action>)
    requires StateOk(s) && i < |s.calls| && Leaves(env, i)
    ensures StateOk(Later(s, env)) && i < |Later(s, env).calls| && Later(s, env).calls[i] == s.calls[i]
    ensures s.db.refreshes <= Later(s, env).db.refreshes
  {
    Untouched(ReadCommitted, s, env, i);
    ExecKeeps(ReadCommitted, s, env);
  }

  /** The loser's lookup, whatever ran since its conflict: it picks up the winner's row. */
  lemma LoserLooksUp(s: State, i: nat, env: seq<Action>, winner: RefreshRow) returns (s': State)
    requires StateOk(s) && i < |s.calls| && s.calls[i].phase == LookingForWinner && Leaves(env, i)
    requires winner in s.db.refreshes && winner.beforeRefreshHash == Some(Sha256Hex(s.calls[i].token))
    ensures s' == Step(ReadCommitted, Later(s, env), Of(i, FindWinner)) && StateOk(s') && i < |s'.calls|
    ensures s'.calls[i] == s.calls[i].(phase := LoadingSubmitted(Replay(winner)))
  {
    var t := Later(s, env);
    LaterOk(s, i, env);
    s' := Step(ReadCommitted, t, Of(i, FindWinner));
    LoserFindsWinnerIffCommittedReads(ReadCommitted, t, i);
    StepKeeps(ReadCommitted, t, Of(i, FindWinner));
    RotatedRowIsUnique(t.db.refreshes, s'.calls[i].phase.goal.rotated, winner);
  }

  lemma LoserLoadsSubmitted(s: State, i: nat, env: seq<Action>, winner: RefreshRow, dbNow: int) returns (s': State)
    requires StateOk(s) && i < |s.calls| && s.calls[i].phase == LoadingSubmitted(Replay(winner)) && Leaves(env, i)
    ensures s' == Step(ReadCommitted, Later(s, env), Of(i, LoadSubmitted(dbNow))) && StateOk(s') && i < |s'.calls|
    ensures s.calls[i].token.Jwt?
    ensures s'.calls[i] == s.calls[i].(phase :=
      if dbNow < s.calls[i].token.exp then LoadingSession(Replay(winner)) else Done(Failed(InvalidToken)))
  {
    var t := Later(s, env);
    LaterOk(s, i, env);
    s' := Step(ReadCommitted, t, Of(i, LoadSubmitted(dbNow)));
    assert CallOk(t.db, t.calls[i]);
    RotatedRowKeepsTheSession(t.db, winner, t.calls[i].token);
    SubmittedFoundIffStoredAndUnexpired(ReadCommitted, t, i, dbNow);
    StepKeeps(ReadCommitted, t, Of(i, LoadSubmitted(dbNow)));
  }

  /** The loser's remaining statements, with anything other requests do in between; the
      first result is the state its session lookup sees, the second the state after it. */
  function LoserRun(s: State, i: nat, env: (seq<Action>, seq<Action>, seq<Action>), dbNow: int,
                    signing: (nat, nat, nat))
    : (State, State)
  {
    var s1 := Step(ReadCommitted, Later(s, env.0), Of(i, FindWinner));
    var s2 := Step(ReadCommitted, Later(s1, env.1), Of(i, LoadSubmitted(dbNow)));
    var s3 := Later(s2, env.2);
    (s3, Step(ReadCommitted, s3, Of(i, LoadSession(signing.0, signing.1, signing.2))))
  }

  lemma DoneStays(iso: Isolation, s: State, i: nat, step: CallStep)
    requires i < |s.calls| && s.calls[i].phase.Done?
    ensures Step(iso, s, Of(i, step)) == s
  {
    assert s.calls[i := s.calls[i]] == s.calls;
  }

  lemma CallsStay(iso: Isolation, s: State, i: nat, step: CallStep)
    ensures |Step(iso, s, Of(i, step)).calls| == |s.calls|
  {
  }

  /** Under committed reads a request that lost the race answers, in every interleaving, with
      the winner's token exactly when the submitted token is unexpired at revalidation and its
      session still accepts it; it never answers with a conflict. */
  lemma LoserConverges(s: State, i: nat, env: (seq<Action>, seq<Action>, seq<Action>), dbNow: int,
                       signing: (nat, nat, nat), winner: RefreshRow)
    requires StateOk(s) && i < |s.calls| && s.calls[i].phase == LookingForWinner
    requires Leaves(env.0, i) && Leaves(env.1, i) && Leaves(env.2, i)
    requires winner in s.db.refreshes && winner.beforeRefreshHash == Some(Sha256Hex(s.calls[i].token))
    ensures s.calls[i].token.Jwt?
    ensures var (before, after) := LoserRun(s, i, env, dbNow, signing);
      && i < |after.calls| && after.calls[i].phase.Done?
      && var reply := after.calls[i].phase.reply;
      && (reply.Ok? <==> dbNow < s.calls[i].token.exp && SessionAccepts(before.db, s.calls[i].token, s.calls[i].ip))
      && (reply.Ok? ==> reply.refresh == DecryptAesGcm(winner.refreshEncrypted))
      && (reply.Failed? ==> reply.error == InvalidToken)
  {
    hide StateOk, Exec, Step, SessionAccepts;
    var s1 := LoserLooksUp(s, i, env.0, winner);
    var s2 := LoserLoadsSubmitted(s1, i, env.1, winner, dbNow);
    LaterOk(s2, i, env.2);
    if dbNow < s.calls[i].token.exp {
      ReplayAnswersIffAccepted(ReadCommitted, Later(s2, env.2), i, winner, signing.0, signing.1, signing.2);
    } else {
      DoneStays(ReadCommitted, Later(s2, env.2), i, LoadSession(signing.0, signing.1, signing.2));
    }
    CallsStay(ReadCommitted, Later(s2, env.2), i, LoadSession(signing.0, signing.1, signing.2));
  }

  // ---------------------------------------------------------------- expired tokens

  /** The database clock is never before `exp` when call `i` loads its submitted row. */
  predicate LoadsOnlyAfter(actions: seq<Action>, i: nat, exp: int) {
    forall a | a in actions && a.Of? && a.call == i && a.step.LoadSubmitted? :: a.step.dbNow >= exp
  }

  /** The call has not got past loading its submitted row. */
  predicate NotValidated(c: Call) {
    match c.phase
    case LookingForRotated => true
    case LoadingSubmitted(_) => true
    case Done(reply) => reply.Failed?
    case _ => false
  }

  lemma ExpiredRowIsNotFound(iso: Isolation, db: Db, c: Call, dbNow: int)
    requires DbOk(db) && CallOk(db, c) && c.phase.LoadingSubmitted?
    requires c.token.Jwt? && dbNow >= c.token.exp
    ensures FindSubmitted(ViewOf(iso, db, c).refreshes, Sha256Hex(c.token), dbNow) == None
  {
    var view := ViewOf(iso, db, c);
    forall r | r in view.refreshes && r.refreshHash == Sha256Hex(c.token) ensures r.endAt <= dbNow {
      StoredTokenNamesItsRow(view, r, c.token);
    }
  }

  /** A request whose token has expired by the database clock whenever it is looked up never
      gets a token, even if the servers' clocks still accept it. */
  lemma {:induction false} ExpiredTokenGetsNoAnswer(iso: Isolation, s: State, actions: seq<Action>, i: nat)
    requires StateOk(s) && i < |s.calls| && s.calls[i].token.Jwt? && NotValidated(s.calls[i])
    requires LoadsOnlyAfter(actions, i, s.calls[i].token.exp)
    ensures i < |Exec(iso, s, actions).calls| && NotValidated(Exec(iso, s, actions).calls[i])
    decreases |actions|
  {
    if actions != [] {
      var a, c := actions[0], s.calls[i];
      var s' := Step(iso, s, a);
      assert a in actions && forall x | x in actions[1..] :: x in actions;
      StepKeeps(iso, s, a);
      if a.Of? && a.call == i && a.step.LoadSubmitted? && c.phase.LoadingSubmitted? {
        assert CallOk(s.db, c);
        ExpiredRowIsNotFound(iso, s.db, c, a.step.dbNow);
      }
      assert s'.calls[i].token == c.token && NotValidated(s'.calls[i]);
      ExpiredTokenGetsNoAnswer(iso, s', actions[1..], i);
    }
  }
}
