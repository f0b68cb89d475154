/**
 The sign-in and refresh service over its repository, statement by statement. While a call
 waits for the database, other requests' statements run; every method below is shown to be
 a run of the rotation machine, so what holds of every run holds of the service.
 */
module UserService {
  import opened Optional
  import opened Tokens
  import opened UserTables
  import opened RefreshProtocol
  import opened RefreshInvariant
  import opened RefreshTheorems
  import opened RefreshOutcomes
  import opened RefreshCalls

  datatype UserRow = UserRow(userId: string, stateId: string, deviceOs: Option<string>, deviceToken: Option<string>)

  datatype SignInError = WrongLogin | LoginRestricted | DuplicateSession | DuplicateRefresh | ServerFailure

  class UserRepository {
    var users: map<string, UserRow>      // by login id
    var loginAble: map<string, bool>     // by state id
    var sessions: map<string, SessionRow>
    var refreshes: seq<RefreshRow>

    constructor ()
      ensures Tables() == EMPTY_DB && users == map[] && loginAble == map[]
    {
      users, loginAble, sessions, refreshes := map[], map[], map[], [];
    }

    function Tables(): Db
      reads this
    {
      Db(sessions, refreshes)
    }

    /** Stores the row unless its id is taken or the statement fails otherwise. */
    method InsertSession(row: SessionRow, fails: bool) returns (error: Option<SignInError>)
      modifies this`sessions
      ensures error == Some(ServerFailure) <==> fails
      ensures error == Some(DuplicateSession) <==> !fails && row.sessionId in old(sessions)
      ensures error.Some? ==> error.value == ServerFailure || error.value == DuplicateSession
      ensures sessions == if error.None? then old(sessions)[row.sessionId := row] else old(sessions)
    {
      if fails {
        return Some(ServerFailure);
      }
      if row.sessionId in sessions {
        return Some(DuplicateSession);
      }
      sessions := sessions[row.sessionId := row];
      error := None;
    }

    /** Checks the digest key and the predecessor key; when both clash, the server chooses. */
    method InsertSessionRefresh(row: RefreshRow, report: UniqueKey) returns (clash: Option<UniqueKey>)
      modifies this`refreshes
      ensures match InsertRefresh(old(Tables()), row, report)
        case Inserted(db) => clash == None && Tables() == db
        case Duplicate(key) => clash == Some(key) && Tables() == old(Tables())
    {
      var sameHash := HasHash(refreshes, row.refreshHash);
      var sameBefore := ClashesBefore(refreshes, row);
      if sameHash && (!sameBefore || report == RefreshHashKey) {
        clash := Some(RefreshHashKey);
      } else if sameBefore {
        clash := Some(BeforeRefreshHashKey);
      } else {
        clash := None;
        refreshes := refreshes + [row];
      }
    }
  }

  datatype Loaded = Session(row: SessionRow) | Refused(reply: Reply)

  datatype SignInReply =
    | SignedIn(access: Token, accessExpiresAt: int, refresh: Token, refreshExpiresAt: int)
    | SignInFailed(error: SignInError)

  /** The writing statements of a sign-in, made and committed at once. */
  datatype Write = UpdatingUser | InsertingSession | InsertingRefresh

  /** The one step of the machine that a sign-in under a new session id is. */
  lemma SignInStep(iso: Isolation, s: State, history: seq<Action>, userId: string, id: string, ip: Option<string>,
                   now: nat, iv: nat)
    requires s == Exec(iso, INITIAL, history) && id !in s.db.sessions
    ensures Step(iso, s, RefreshProtocol.SignIn(userId, id, ip, now, iv)) ==
      s.(db := Db(WithSession(s.db, userId, id, ip).sessions, s.db.refreshes + [RootRow(userId, id, now, iv)]))
  {
    hide Exec, SignInCommit;
    ReachableOk(iso, history);
    SignInIsNeverRefused(s.db, userId, id, ip, now, iv);
  }

  /** A value that is there and not blank. */
  predicate Present(x: Option<string>) {
    x.Some? && x.value != ""
  }

  /** A first statement of a call that is not done, and then the rest. */
  lemma ServeCons(iso: Isolation, s: State, i: nat, w: Wait, rest: seq<Wait>)
    requires i < |s.calls| && !s.calls[i].phase.Done?
    ensures var b := Exec(iso, s, w.others);
      i < |b.calls| ==>
        Serve(iso, s, i, [w] + rest) == Serve(iso, Step(iso, b, Of(i, Own(b.calls[i].phase, w))), i, rest)
  {
    hide Step, Own, Exec;
    assert ([w] + rest)[1..] == rest;
  }

  lemma ServeDone(iso: Isolation, s: State, i: nat, w: seq<Wait>)
    requires i < |s.calls| && s.calls[i].phase.Done?
    ensures Serve(iso, s, i, w) == s
  {
  }

  lemma ServeNothing(iso: Isolation, s: State, i: nat)
    ensures Serve(iso, s, i, []) == s
  {
  }

  class UserService {
    const iso: Isolation
    const repository: UserRepository
    var calls: seq<Call>                 // the saved state of each refresh request
    ghost var history: seq<Action>       // every statement executed so far

    constructor (iso: Isolation)
      ensures Valid() && calls == [] && fresh(repository)
    {
      this.iso := iso;
      repository := new UserRepository();
      calls := [];
      history := [];
    }

    ghost function Here(): State
      reads this, repository
    {
      State(repository.Tables(), calls)
    }

    /** The tables and calls are the outcome of the recorded history. */
    ghost predicate Valid()
      reads this, repository
    {
      Here() == Exec(iso, INITIAL, history)
    }

    /** Appends an executed action to the history. */
    ghost method Record(a: Action, before: State)
      requires before == Exec(iso, INITIAL, history)
      requires Here() == Step(iso, before, a)
      modifies this`history
      ensures Valid() && history == old(history) + [a]
    {
      hide Step;
      ExecAppend(iso, INITIAL, history, [a]);
      assert [a][1..] == [];
      history := history + [a];
    }

    /** Other requests' statements, run while a call waits. */
    method Await(env: seq<Action>)
      requires Valid()
      modifies this, repository`sessions, repository`refreshes
      ensures Valid() && history == old(history) + env
      ensures Here() == Exec(iso, old(Here()), env)
    {
      hide Step;
      for k := 0 to |env|
        invariant Valid() && history == old(history) + env[..k]
        invariant Here() == Exec(iso, old(Here()), env[..k])
      {
        ghost var before := Here();
        var s := Step(iso, State(repository.Tables(), calls), env[k]);
        repository.sessions := s.db.sessions;
        repository.refreshes := s.db.refreshes;
        calls := s.calls;
        Record(env[k], before);
        ExecAppend(iso, old(Here()), env[..k], [env[k]]);
        assert [env[k]][1..] == [];
        assert env[..k] + [env[k]] == env[..k + 1];
      }
      assert env[..|env|] == env;
    }

    /** The call resumes after a statement that changed no row, and goes on as `next`. */
    method Save(me: nat, next: Call, ghost step: CallStep)
      requires Valid() && me < |calls|
      requires Advance(iso, repository.Tables(), calls[me], step) == (repository.Tables(), next)
      modifies this
      ensures Valid() && history == old(history) + [Of(me, step)]
      ensures calls == old(calls)[me := next] && Here() == Step(iso, old(Here()), Of(me, step))
    {
      hide Advance;
      ghost var before := Here();
      calls := calls[me := next];
      Record(Of(me, step), before);
    }

    /** Waits for the database; the waiting call itself stays as it was. */
    method Suspend(me: nat, env: seq<Action>)
      requires Valid() && me < |calls| && Leaves(env, me)
      modifies this, repository`sessions, repository`refreshes
      ensures Valid() && history == old(history) + env && Here() == Exec(iso, old(Here()), env)
      ensures me < |calls| && calls[me] == old(calls[me])
      ensures old(repository.refreshes) <= repository.refreshes
    {
      hide Step;
      ghost var start := Here();
      Await(env);
      Untouched(iso, start, env, me);
      ReachableOk(iso, old(history));
      ExecKeeps(iso, start, env);
    }

    /** One statement of a call that fails without effect. */
    method FailStatement(me: nat, w: Wait) returns (reply: Reply)
      requires Valid() && me < |calls| && !calls[me].phase.Done? && Leaves(w.others, me)
      requires w.fault != NoFault && (calls[me].phase.Inserting? ==> w.fault == NotExecuted)
      modifies this, repository`sessions, repository`refreshes
      ensures Valid() && me < |calls| && old(history) <= history && reply == Failed(ServerError)
      ensures calls[me] == old(calls[me]).(phase := Done(reply))
      ensures forall rest :: Here() == Serve(iso, old(Here()), me, [w] + rest)
    {
      hide Exec, Serve;
      Suspend(me, w.others);
      reply := Failed(ServerError);
      Save(me, calls[me].(phase := Done(reply)), Fail);
      forall rest ensures Here() == Serve(iso, old(Here()), me, [w] + rest) {
        ServeCons(iso, old(Here()), me, w, rest);
        ServeDone(iso, Here(), me, rest);
      }
    }

    /** The shared check: the submitted row exists and is unexpired, its session is live and
        the request address matches. */
    method ValidateAndLoadSession(me: nat, goal: Goal, w1: Wait, w2: Wait) returns (loaded: Loaded)
      requires Valid() && me < |calls| && calls[me].phase == LoadingSubmitted(goal) && calls[me].token.Jwt?
      requires Leaves(w1.others, me) && Leaves(w2.others, me)
      modifies this, repository`sessions, repository`refreshes
      ensures Valid() && me < |calls| && old(history) <= history
      ensures match loaded
        case Refused(reply) =>
          && reply.Failed? && calls[me] == old(calls[me]).(phase := Done(reply))
          && Here() == Serve(iso, old(Here()), me, [w1, w2])
        case Session(row) =>
          && w2.fault == NoFault && calls[me] == old(calls[me]).(phase := LoadingSession(goal))
          && Step(iso, Here(), Of(me, Own(calls[me].phase, w2))) == Serve(iso, old(Here()), me, [w1, w2])
          && var view := ViewOf(iso, repository.Tables(), calls[me]);
          FindSession(view, SessionSought(calls[me], goal), calls[me].ip) == Some(row)
    {
      hide Exec, Serve;
      ghost var start := Here();
      assert [w1] + [w2] == [w1, w2] && [w2] + [] == [w2];
      if w1.fault != NoFault {
        var reply := FailStatement(me, w1);
        return Refused(reply);
      }
      Suspend(me, w1.others);
      ServeCons(iso, start, me, w1, [w2]);
      var view := ViewOf(iso, repository.Tables(), calls[me]);
      var submitted := FindSubmitted(view.refreshes, Sha256Hex(calls[me].token), w1.dbNow);
      if submitted.None? {
        Save(me, calls[me].(phase := Done(Failed(InvalidToken))), LoadSubmitted(w1.dbNow));
        ServeDone(iso, Here(), me, [w2]);
        return Refused(Failed(InvalidToken));
      }
      Save(me, calls[me].(phase := LoadingSession(goal)), LoadSubmitted(w1.dbNow));
      loaded := FindSessionOf(me, goal, w2);
    }

    /** The session look-up itself; a session that is found is not recorded yet. */
    method FindSessionOf(me: nat, goal: Goal, w: Wait) returns (loaded: Loaded)
      requires Valid() && me < |calls| && calls[me].phase == LoadingSession(goal) && calls[me].token.Jwt?
      requires Leaves(w.others, me)
      modifies this, repository`sessions, repository`refreshes
      ensures Valid() && me < |calls| && old(history) <= history
      ensures match loaded
        case Refused(reply) =>
          && reply.Failed? && calls[me] == old(calls[me]).(phase := Done(reply))
          && Here() == Serve(iso, old(Here()), me, [w])
        case Session(row) =>
          && w.fault == NoFault && calls[me] == old(calls[me])
          && Step(iso, Here(), Of(me, Own(calls[me].phase, w))) == Serve(iso, old(Here()), me, [w])
          && var view := ViewOf(iso, repository.Tables(), calls[me]);
          FindSession(view, SessionSought(calls[me], goal), calls[me].ip) == Some(row)
    {
      hide Exec, Serve;
      ghost var start := Here();
      assert [w] + [] == [w];
      if w.fault != NoFault {
        var reply := FailStatement(me, w);
        return Refused(reply);
      }
      Suspend(me, w.others);
      ServeCons(iso, start, me, w, []);
      ServeNothing(iso, Step(iso, Here(), Of(me, Own(calls[me].phase, w))), me);
      var view := ViewOf(iso, repository.Tables(), calls[me]);
      var session := FindSession(view, SessionSought(calls[me], goal), calls[me].ip);
      if session.None? {
        Save(me, calls[me].(phase := Done(Failed(InvalidToken))),
             LoadSession(w.signing.access, w.signing.refresh, w.signing.iv));
        return Refused(Failed(InvalidToken));
      }
      return Session(session.value);
    }

    /** The answer already given: the rotated row's token, with an access token signed now. */
    method ReplyRotated(me: nat, rotated: RefreshRow, w1: Wait, w2: Wait) returns (reply: Reply)
      requires Valid() && me < |calls| && calls[me].phase == LoadingSubmitted(Replay(rotated)) && calls[me].token.Jwt?
      requires Leaves(w1.others, me) && Leaves(w2.others, me)
      modifies this, repository`sessions, repository`refreshes
      ensures Valid() && me < |calls| && old(history) <= history
      ensures calls[me] == old(calls[me]).(phase := Done(reply)) && Here() == Serve(iso, old(Here()), me, [w1, w2])
      ensures reply.Ok? ==>
        && reply.refresh == DecryptAesGcm(rotated.refreshEncrypted) && reply.refreshExpiresAt == rotated.endAt
        && reply.access.Jwt? && reply.access.iat == w2.signing.access
        && reply.accessExpiresAt == reply.access.exp == reply.access.iat + 1200
    {
      hide Exec, Serve;
      var loaded := ValidateAndLoadSession(me, Replay(rotated), w1, w2);
      if loaded.Refused? {
        return loaded.reply;
      }
      var session := loaded.row;
      var access := Sign("access", session.userId, session.sessionId, w2.signing.access, ACCESS_TTL);
      reply := Ok(access, access.exp, DecryptAesGcm(rotated.refreshEncrypted), rotated.endAt);
      Save(me, calls[me].(phase := Done(reply)), LoadSession(w2.signing.access, w2.signing.refresh, w2.signing.iv));
    }

    /** After a lost race: look the winner's row up and replay it. */
    method ReplyWinner(me: nat, w: seq<Wait>) returns (reply: Reply)
      requires Valid() && me < |calls| && calls[me].phase == LookingForWinner && calls[me].token.Jwt?
      requires |w| == 3 && forall k | 0 <= k < |w| :: Leaves(w[k].others, me)
      modifies this, repository`sessions, repository`refreshes
      ensures Valid() && me < |calls| && old(history) <= history
      ensures calls[me] == old(calls[me]).(phase := Done(reply)) && Here() == Serve(iso, old(Here()), me, w)
      ensures reply.Ok? ==>
        && reply.access.Jwt? && reply.access.iat == w[2].signing.access
        && reply.accessExpiresAt == reply.access.exp == reply.access.iat + 1200
    {
      hide Exec, Serve;
      ghost var start := Here();
      assert w == [w[0]] + [w[1], w[2]];
      if w[0].fault != NoFault {
        reply := FailStatement(me, w[0]);
        return;
      }
      Suspend(me, w[0].others);
      ServeCons(iso, start, me, w[0], [w[1], w[2]]);
      var view := ViewOf(iso, repository.Tables(), calls[me]);
      var winner := FindRotated(view.refreshes, Sha256Hex(calls[me].token));
      if winner.None? {
        Save(me, calls[me].(phase := Done(Failed(AlreadyRotated))), FindWinner);
        ServeDone(iso, Here(), me, [w[1], w[2]]);
        return Failed(AlreadyRotated);
      }
      Save(me, calls[me].(phase := LoadingSubmitted(Replay(winner.value))), FindWinner);
      reply := ReplyRotated(me, winner.value, w[1], w[2]);
    }

    /** The insert statement: `None` is a lost race. */
    method InsertRotated(me: nat, access: Token, refresh: Token, row: RefreshRow, w: Wait)
        returns (reply: Option<Reply>)
      requires Valid() && me < |calls| && calls[me].phase == Inserting(access, refresh, row)
      requires access.Jwt? && refresh.Jwt? && Leaves(w.others, me)
      modifies this, repository`sessions, repository`refreshes
      ensures Valid() && me < |calls| && old(history) <= history
      ensures calls[me] == old(calls[me]).(phase := if reply.Some? then Done(reply.value) else LookingForWinner)
      ensures reply.Some? && reply.value.Ok? ==> reply.value == Ok(access, access.exp, refresh, refresh.exp)
      ensures var b := Exec(iso, old(Here()), w.others);
        me < |b.calls| && Here() == Step(iso, b, Of(me, Own(b.calls[me].phase, w)))
    {
      hide Exec;
      Suspend(me, w.others);
      ghost var before := Here();
      if w.fault.NotExecuted? {
        Save(me, calls[me].(phase := Done(Failed(ServerError))), Fail);
        return Some(Failed(ServerError));
      }
      if w.fault.Unanswered? {
        var _ := repository.InsertSessionRefresh(row, RefreshHashKey);
        calls := calls[me := calls[me].(phase := Done(Failed(ServerError)))];
        Record(Of(me, InsertUnanswered), before);
        return Some(Failed(ServerError));
      }
      var clash := repository.InsertSessionRefresh(row, w.report);
      if clash == Some(BeforeRefreshHashKey) {
        Save(me, calls[me].(phase := LookingForWinner), Insert(w.report));
        reply := None;
      } else if clash == Some(RefreshHashKey) {
        Save(me, calls[me].(phase := Done(Failed(DuplicateToken))), Insert(w.report));
        reply := Some(Failed(DuplicateToken));
      } else {
        reply := Some(Ok(access, access.exp, refresh, refresh.exp));
        calls := calls[me := calls[me].(phase := Done(reply.value))];
        Record(Of(me, Insert(w.report)), before);
      }
    }

    /** The insert of a new row, and on a lost race the winner's lookup and replay. */
    method InsertOrReplay(me: nat, access: Token, refresh: Token, row: RefreshRow, w: seq<Wait>) returns (reply: Reply)
      requires Valid() && me < |calls| && calls[me].phase == Inserting(access, refresh, row) && calls[me].token.Jwt?
      requires access.Jwt? && refresh.Jwt?
      requires |w| == 4 && forall k | 0 <= k < |w| :: Leaves(w[k].others, me)
      modifies this, repository`sessions, repository`refreshes
      ensures Valid() && me < |calls| && old(history) <= history
      ensures calls[me] == old(calls[me]).(phase := Done(reply)) && Here() == Serve(iso, old(Here()), me, w)
      ensures reply.Ok? ==>
        || reply == Ok(access, access.exp, refresh, refresh.exp)
        || (reply.access.Jwt? && reply.access.iat == w[3].signing.access
            && reply.accessExpiresAt == reply.access.exp == reply.access.iat + 1200)
    {
      hide Exec, Serve, Step, Own;
      ghost var start := Here();
      assert w == [w[0]] + w[1..];
      ServeCons(iso, start, me, w[0], w[1..]);
      var answered := InsertRotated(me, access, refresh, row, w[0]);
      if answered.Some? {
        ServeDone(iso, Here(), me, w[1..]);
        return answered.value;
      }
      reply := ReplyWinner(me, w[1..]);
    }

    /** The first rotation of a token, once validated: sign both tokens and insert the row. */
    method Rotate(me: nat, w: seq<Wait>) returns (reply: Reply)
      requires Valid() && me < |calls| && calls[me].phase == LoadingSubmitted(FirstRotation) && calls[me].token.Jwt?
      requires |w| == 6 && forall k | 0 <= k < |w| :: Leaves(w[k].others, me)
      modifies this, repository`sessions, repository`refreshes
      ensures Valid() && me < |calls| && old(history) <= history
      ensures calls[me] == old(calls[me]).(phase := Done(reply)) && Here() == Serve(iso, old(Here()), me, w)
      ensures reply.Ok? ==>
        && reply.access.Jwt?
        && (reply.access.iat == w[1].signing.access || reply.access.iat == w[5].signing.access)
        && reply.accessExpiresAt == reply.access.exp == reply.access.iat + 1200
    {
      hide Exec, Serve;
      ghost var start := Here();
      assert w == [w[0], w[1]] + w[2..];
      ServeAppend(iso, start, me, [w[0], w[1]], w[2..]);
      var loaded := ValidateAndLoadSession(me, FirstRotation, w[0], w[1]);
      if loaded.Refused? {
        ServeDone(iso, Here(), me, w[2..]);
        return loaded.reply;
      }
      var session := loaded.row;
      var access := Sign("access", session.userId, session.sessionId, w[1].signing.access, ACCESS_TTL);
      var refresh := Sign("refresh", session.userId, session.sessionId, w[1].signing.refresh, REFRESH_TTL);
      var row := RefreshRow(session.sessionId, Sha256Hex(refresh), EncryptAesGcm(refresh, w[1].signing.iv),
                            Some(Sha256Hex(calls[me].token)), refresh.exp);
      Save(me, calls[me].(phase := Inserting(access, refresh, row)),
           LoadSession(w[1].signing.access, w[1].signing.refresh, w[1].signing.iv));
      reply := InsertOrReplay(me, access, refresh, row, w[2..]);
    }

    /** An admitted request: look for a rotation already made, then replay it or rotate. */
    method Exchange(me: nat, w: seq<Wait>) returns (reply: Reply)
      requires Valid() && me < |calls| && calls[me].phase == LookingForRotated && calls[me].token.Jwt?
      requires |w| == 7 && forall k | 0 <= k < |w| :: Leaves(w[k].others, me)
      modifies this, repository`sessions, repository`refreshes
      ensures Valid() && me < |calls| && old(history) <= history && Here() == Serve(iso, old(Here()), me, w)
      ensures calls[me].phase == Done(reply)
    {
      hide Exec, Serve;
      ghost var start := Here();
      assert w == [w[0]] + w[1..] && w[1..] == [w[1], w[2]] + w[3..];
      if w[0].fault != NoFault {
        reply := FailStatement(me, w[0]);
        return;
      }
      Suspend(me, w[0].others);
      ServeCons(iso, start, me, w[0], w[1..]);
      var existing := FindRotated(repository.refreshes, Sha256Hex(calls[me].token));
      var view := Some(repository.Tables());
      if existing.Some? {
        Save(me, calls[me].(view := view, phase := LoadingSubmitted(Replay(existing.value))), FindExisting);
        ServeAppend(iso, Here(), me, [w[1], w[2]], w[3..]);
        reply := ReplyRotated(me, existing.value, w[1], w[2]);
        ServeDone(iso, Here(), me, w[3..]);
      } else {
        Save(me, calls[me].(view := view, phase := LoadingSubmitted(FirstRotation)), FindExisting);
        reply := Rotate(me, w[1..]);
      }
    }

    /** A refresh request from arrival to answer, with arbitrary other statements at each of
        its waits and any of its statements failing. It answers, with an access token signed
        then and the token rotated from the submitted one, exactly unless there is a reason to
        refuse it, and then it says which. */
    method Refresh(token: Token, ip: Option<string>, serverNow: nat, w: seq<Wait>) returns (reply: Reply)
      requires Valid() && |w| == 7 && OthersLeaveEach(w, |calls|)
      modifies this, repository`sessions, repository`refreshes
      ensures Valid() && old(history) + [Arrive(token, ip, serverNow)] <= history
      ensures var me, arrived := |old(calls)|, Step(iso, old(Here()), Arrive(token, ip, serverNow));
        && me < |calls| && calls[me].phase == Done(reply) && Here() == Serve(iso, arrived, me, w)
        && if token.Jwt? && token.exp <= serverNow then reply == Failed(ExpiredToken)
           else if !token.Jwt? || token.kind != "refresh" || token.userId == "" || token.sessionId == ""
           then reply == Failed(InvalidToken)
           else
             match Refusal(iso, arrived, me, w, token, ip)
             case Some(error) => reply == Failed(error)
             case None =>
               reply.Ok? && AnswerFits(iso, arrived, me, w, token, reply) && IsRotated(Here().db, token, reply)
    {
      hide Exec, Serve, Refusal, AnswerFits, IsRotated;
      var me := |calls|;
      ghost var before := Here();
      ReachableOk(iso, history);
      WholeCall(iso, before, token, ip, serverNow, w);
      var verdict := Verify(token, serverNow);
      if verdict != Accepted || !IsRefreshToken(token) {
        reply := Failed(if verdict == Expired then ExpiredToken else InvalidToken);
        calls := calls + [Call(token, ip, None, Done(reply))];
        Record(Arrive(token, ip, serverNow), before);
        ServeDone(iso, Here(), me, w);
        return;
      }
      calls := calls + [Call(token, ip, None, LookingForRotated)];
      Record(Arrive(token, ip, serverNow), before);
      reply := Exchange(me, w);
    }

    /** The two reads of a sign-in, with other requests' statements before each. */
    method FindUser(loginId: string, passOk: bool, find: Wait, state: Wait)
        returns (user: UserRow, error: Option<SignInError>)
      requires Valid()
      modifies this, repository`sessions, repository`refreshes
      ensures Valid()
      ensures var known := loginId in repository.users;
        var past := find.fault == NoFault && known && passOk;
        var env := find.others + (if past then state.others else []);
        && history == old(history) + env && Here() == Exec(iso, old(Here()), env)
        && (known ==> user == repository.users[loginId])
        && (error == Some(ServerFailure) <==> find.fault != NoFault || (past && state.fault != NoFault))
        && (error == Some(WrongLogin) <==> find.fault == NoFault && !(known && passOk))
        && (error == Some(LoginRestricted) <==>
              past && state.fault == NoFault
              && !(user.stateId in repository.loginAble && repository.loginAble[user.stateId]))
        && (error.Some? ==> error.value in {ServerFailure, WrongLogin, LoginRestricted})
    {
      hide Exec;
      ghost var start := Here();
      user := UserRow("", "", None, None);
      if loginId in repository.users {
        user := repository.users[loginId];
      }
      Await(find.others);
      assert find.others + [] == find.others;
      if find.fault != NoFault {
        return user, Some(ServerFailure);
      }
      if loginId !in repository.users || !passOk {
        return user, Some(WrongLogin);
      }
      Await(state.others);
      ExecAppend(iso, start, find.others, state.others);
      if state.fault != NoFault {
        return user, Some(ServerFailure);
      }
      if user.stateId !in repository.loginAble || !repository.loginAble[user.stateId] {
        return user, Some(LoginRestricted);
      }
      error := None;
    }

    /** Sign-in. `passOk` is the verdict of the password comparison and `sessionId` the new
        random id. Every outcome exactly when it is the first thing to go wrong; a refused or
        failing write rolls the whole transaction back. */
    method SignIn(loginId: string, passOk: bool, deviceOs: Option<string>, deviceToken: Option<string>,
                  ip: Option<string>, sessionId: string, accessNow: nat, refreshNow: nat, iv: nat,
                  find: Wait, state: Wait, failing: Option<Write>)
        returns (reply: SignInReply)
      requires Valid()
      modifies this, repository`users, repository`sessions, repository`refreshes
      ensures Valid() && old(history) <= history
      ensures var known := loginId in old(repository.users);
        var user := if known then old(repository.users)[loginId] else UserRow("", "", None, None);
        var found := find.fault == NoFault && known && passOk;
        var before := Exec(iso, old(Here()), find.others + (if found then state.others else []));
        var able := found && state.fault == NoFault
                    && user.stateId in repository.loginAble && repository.loginAble[user.stateId];
        var mobile := deviceOs.Some? && deviceOs.value != "" && deviceToken.Some? && deviceToken.value != "";
        var taken := sessionId in before.db.sessions;
        var reaches := able && !(failing == Some(UpdatingUser) && mobile) && failing != Some(InsertingSession);
        && (reply == SignInFailed(WrongLogin) <==> find.fault == NoFault && !(known && passOk))
        && (reply == SignInFailed(LoginRestricted) <==> found && state.fault == NoFault && !able)
        && (reply == SignInFailed(DuplicateSession) <==> reaches && taken)
        && (reply.SignedIn? <==> reaches && !taken && failing != Some(InsertingRefresh))
        && reply != SignInFailed(DuplicateRefresh)
        && (reply.SignInFailed? ==> Here() == before && repository.users == old(repository.users))
        && (reply.SignedIn? ==>
              && repository.sessions == before.db.sessions[sessionId :=
                   SessionRow(sessionId, user.userId, if ip.Some? && ip.value != "" then ip else None, false)]
              && reply.access == Jwt("access", user.userId, sessionId, accessNow, accessNow + 1200)
              && reply.accessExpiresAt == accessNow + 1200
              && reply.refresh == Jwt("refresh", user.userId, sessionId, refreshNow, refreshNow + 86400)
              && reply.refreshExpiresAt == refreshNow + 86400
              && repository.refreshes == before.db.refreshes +
                   [RefreshRow(sessionId, Sha256Hex(reply.refresh), EncryptAesGcm(reply.refresh, iv), None,
                               refreshNow + 86400)]
              && repository.users == if mobile
                   then old(repository.users)[loginId := UserRow(user.userId, user.stateId, deviceOs, deviceToken)]
                   else old(repository.users))
    {
      hide Exec;
      var user, error := FindUser(loginId, passOk, find, state);
      if error.Some? {
        return SignInFailed(error.value);
      }
      reply := CreateSession(loginId, user, deviceOs, deviceToken, ip, sessionId, accessNow, refreshNow, iv, failing);
    }

    /** The writes of a sign-in: all of them, or none. */
    method CreateSession(loginId: string, user: UserRow, deviceOs: Option<string>, deviceToken: Option<string>,
                         ip: Option<string>, sessionId: string, accessNow: nat, refreshNow: nat, iv: nat,
                         failing: Option<Write>)
        returns (reply: SignInReply)
      requires Valid() && loginId in repository.users && user == repository.users[loginId]
      modifies this`history, repository`users, repository`sessions, repository`refreshes
      ensures Valid() && old(history) <= history
      ensures var taken := sessionId in old(repository.sessions);
        var mobile := deviceOs.Some? && deviceOs.value != "" && deviceToken.Some? && deviceToken.value != "";
        var fails := (failing == Some(UpdatingUser) && mobile) || failing == Some(InsertingSession);
        && (reply.SignedIn? <==> !fails && !taken && failing != Some(InsertingRefresh))
        && (reply == SignInFailed(DuplicateSession) <==> !fails && taken)
        && (reply.SignInFailed? ==>
              && reply.error in {DuplicateSession, ServerFailure}
              && Here() == old(Here()) && repository.users == old(repository.users) && history == old(history))
        && (reply.SignedIn? ==>
              && repository.sessions == old(repository.sessions)[sessionId :=
                   SessionRow(sessionId, user.userId, if ip.Some? && ip.value != "" then ip else None, false)]
              && reply.access == Jwt("access", user.userId, sessionId, accessNow, accessNow + 1200)
              && reply.accessExpiresAt == accessNow + 1200
              && reply.refresh == Jwt("refresh", user.userId, sessionId, refreshNow, refreshNow + 86400)
              && reply.refreshExpiresAt == refreshNow + 86400
              && repository.refreshes == old(repository.refreshes) +
                   [RefreshRow(sessionId, Sha256Hex(reply.refresh), EncryptAesGcm(reply.refresh, iv), None,
                               refreshNow + 86400)]
              && repository.users == if mobile
                   then old(repository.users)[loginId := UserRow(user.userId, user.stateId, deviceOs, deviceToken)]
                   else old(repository.users))
    {
      hide Exec, Step;
      var savedUsers := repository.users;
      if Present(deviceOs) && Present(deviceToken) {
        if failing == Some(UpdatingUser) {
          return SignInFailed(ServerFailure);
        }
        repository.users := repository.users[loginId := user.(deviceOs := deviceOs, deviceToken := deviceToken)];
      }
      reply := InsertSessionRows(user.userId, ip, sessionId, accessNow, refreshNow, iv, failing);
      if reply.SignInFailed? {
        repository.users := savedUsers;
      }
    }

    /** The session row, the two tokens, and the root refresh row. */
    method InsertSessionRows(userId: string, ip: Option<string>, sessionId: string, accessNow: nat, refreshNow: nat,
                             iv: nat, failing: Option<Write>)
        returns (reply: SignInReply)
      requires Valid()
      modifies this`history, repository`sessions, repository`refreshes
      ensures Valid() && old(history) <= history
      ensures var taken := sessionId in old(repository.sessions);
        && (reply.SignedIn? <==> !taken && failing != Some(InsertingSession) && failing != Some(InsertingRefresh))
        && (reply == SignInFailed(DuplicateSession) <==> failing != Some(InsertingSession) && taken)
        && (reply.SignInFailed? ==>
              && reply.error in {DuplicateSession, ServerFailure}
              && Here() == old(Here()) && history == old(history))
        && (reply.SignedIn? ==>
              && repository.sessions == old(repository.sessions)[sessionId :=
                   SessionRow(sessionId, userId, if ip.Some? && ip.value != "" then ip else None, false)]
              && reply.access == Jwt("access", userId, sessionId, accessNow, accessNow + 1200)
              && reply.accessExpiresAt == accessNow + 1200
              && reply.refresh == Jwt("refresh", userId, sessionId, refreshNow, refreshNow + 86400)
              && reply.refreshExpiresAt == refreshNow + 86400
              && repository.refreshes == old(repository.refreshes) +
                   [RefreshRow(sessionId, Sha256Hex(reply.refresh), EncryptAesGcm(reply.refresh, iv), None,
                               refreshNow + 86400)])
    {
      hide Exec, Step, SignInCommit;
      ghost var before := Here();
      var savedSessions := repository.sessions;
      var stored := if Present(ip) then ip else None;
      var row := SessionRow(sessionId, userId, stored, false);
      var error := repository.InsertSession(row, failing == Some(InsertingSession));
      if error.Some? {
        return SignInFailed(error.value);
      }
      if failing == Some(InsertingRefresh) {
        repository.sessions := savedSessions;
        return SignInFailed(ServerFailure);
      }
      var access := Sign("access", userId, sessionId, accessNow, ACCESS_TTL);
      var refresh := Sign("refresh", userId, sessionId, refreshNow, REFRESH_TTL);
      var clash := repository.InsertSessionRefresh(RowFor(refresh, sessionId, None, iv), RefreshHashKey);
      if clash.Some? {
        repository.sessions := savedSessions;
        reply := SignInFailed(DuplicateRefresh);
      } else {
        SignInStep(iso, before, old(history), userId, sessionId, ip, refreshNow, iv);
        Record(RefreshProtocol.SignIn(userId, sessionId, ip, refreshNow, iv), before);
        reply := SignedIn(access, access.exp, refresh, refresh.exp);
      }
      ReachableOk(iso, old(history));
      SignInIsNeverRefused(before.db, userId, sessionId, ip, refreshNow, iv);
    }
  }

  /** Whatever was interleaved, two answered requests for one token got one refresh token. */
  lemma ServiceIsIdempotent(service: UserService, i: nat, j: nat)
    requires service.Valid() && i < |service.calls| && j < |service.calls|
    requires service.calls[i].token == service.calls[j].token
    requires service.calls[i].phase.Done? && service.calls[i].phase.reply.Ok?
    requires service.calls[j].phase.Done? && service.calls[j].phase.reply.Ok?
    ensures service.calls[i].phase.reply.refresh == service.calls[j].phase.reply.refresh
    ensures service.calls[i].phase.reply.refreshExpiresAt == service.calls[j].phase.reply.refreshExpiresAt
  {
    IdempotentRotation(service.iso, service.history, i, j);
  }
}
