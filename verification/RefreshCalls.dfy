/**
 A whole refresh call, from arrival to answer, under either isolation level, with arbitrary
 other statements before each of its own and any of its statements failing: exactly when it
 is answered, with what, and why it is refused.
 */
module RefreshCalls {
  import opened Optional
  import opened Tokens
  import opened UserTables
  import opened RefreshProtocol
  import opened RefreshInvariant
  import opened RefreshOutcomes
  import opened RefreshAmongOthers

  /** A statement may fail before it takes effect, or take effect unheard by its caller. */
  datatype Fault = NoFault | NotExecuted | Unanswered

  /** What precedes one statement of the call, and what the statement meets. */
  datatype Wait = Wait(others: seq<Action>, dbNow: int, signing: Signing, report: UniqueKey, fault: Fault)

  /** The statement a call makes next; none that does anything once it is done. */
  function Own(phase: Phase, w: Wait): CallStep {
    if phase.Done? || w.fault.NotExecuted? then Fail
    else if w.fault.Unanswered? then (if phase.Inserting? then InsertUnanswered else Fail)
    else
      match phase
      case LookingForRotated => FindExisting
      case LoadingSubmitted(_) => LoadSubmitted(w.dbNow)
      case LoadingSession(_) => LoadSession(w.signing.access, w.signing.refresh, w.signing.iv)
      case Inserting(_, _, _) => Insert(w.report)
      case LookingForWinner => FindWinner
      case Done(_) => Fail
  }

  /** The state that statement `k` of call `i` sees, and the state after it. */
  function Before(iso: Isolation, s: State, i: nat, w: seq<Wait>, k: nat): State
    requires k < |w|
    decreases k, 0
  {
    Exec(iso, if k == 0 then s else After(iso, s, i, w, k - 1), w[k].others)
  }

  function After(iso: Isolation, s: State, i: nat, w: seq<Wait>, k: nat): State
    requires k < |w|
    decreases k, 1
  {
    var b := Before(iso, s, i, w, k);
    if i < |b.calls| then Step(iso, b, Of(i, Own(b.calls[i].phase, w[k]))) else b
  }

  /** The call served to its end: the state right after its last statement. */
  function Serve(iso: Isolation, s: State, i: nat, w: seq<Wait>): State
    decreases |w|
  {
    if w == [] || i >= |s.calls| || s.calls[i].phase.Done? then s
    else
      var b := Exec(iso, s, w[0].others);
      Serve(iso, if i < |b.calls| then Step(iso, b, Of(i, Own(b.calls[i].phase, w[0]))) else b, i, w[1..])
  }

  ghost predicate OthersLeaveEach(w: seq<Wait>, i: nat) {
    forall k | 0 <= k < |w| :: Leaves(w[k].others, i)
  }

  // ---------------------------------------------------------------- what decides

  /** The tables that a later read of the call shows: the latest commits, or those at its first read. */
  function Seen(iso: Isolation, s: State, i: nat, w: seq<Wait>, k: nat): Db
    requires k < |w|
  {
    Before(iso, s, i, w, if iso == Snapshot then 0 else k).db
  }

  /** Why the validation refuses, if it does: a statement fails, the submitted token is not
      stored or has expired by the database clock, or its session does not accept it. */
  function ValidationRefusal(loading: Db, session: Db, token: Token, ip: Option<string>, first: Wait, second: Wait)
    : Option<Error>
    requires token.Jwt?
  {
    if first.fault != NoFault then Some(ServerError)
    else if !HasHash(loading.refreshes, Sha256Hex(token)) || first.dbNow >= token.exp then Some(InvalidToken)
    else if second.fault != NoFault then Some(ServerError)
    else if !SessionAccepts(session, token, ip) then Some(InvalidToken)
    else None
  }

  /** Why a rotation is refused once validated, if it is: its insert or a later statement fails,
      its digest repeats and that key is reported, or it lost the race and does not recover. */
  ghost function RotationRefusal(iso: Isolation, s: State, i: nat, w: seq<Wait>, token: Token, ip: Option<string>)
    : Option<Error>
    requires token.Jwt? && |w| == 7
  {
    var inserting := Before(iso, s, i, w, 3).db;
    var rotated := HasRotated(inserting.refreshes, Sha256Hex(token));
    var repeated := SignedInSecond(inserting, token.sessionId, w[2].signing.refresh);
    if w[3].fault != NoFault then Some(ServerError)
    else if !rotated && !repeated then None
    else if repeated && (rotated ==> w[3].report == RefreshHashKey) then Some(DuplicateToken)
    else if w[4].fault != NoFault then Some(ServerError)
    else if iso == Snapshot then Some(AlreadyRotated)
    else ValidationRefusal(Seen(iso, s, i, w, 5), Seen(iso, s, i, w, 6), token, ip, w[5], w[6])
  }

  /** Why an admitted call is refused, if it is, by the tables its statements see. */
  ghost function Refusal(iso: Isolation, s: State, i: nat, w: seq<Wait>, token: Token, ip: Option<string>)
    : Option<Error>
    requires token.Jwt? && |w| == 7
  {
    var first := ValidationRefusal(Seen(iso, s, i, w, 1), Seen(iso, s, i, w, 2), token, ip, w[1], w[2]);
    if w[0].fault != NoFault then Some(ServerError)
    else if first.Some? then first
    else if HasRotated(Before(iso, s, i, w, 0).db.refreshes, Sha256Hex(token)) then None
    else RotationRefusal(iso, s, i, w, token, ip)
  }

  /** The reply's access token is for the submitter, signed in second `now` for 20 minutes. */
  ghost predicate AccessSignedAt(reply: Reply, token: Token, now: nat)
    requires token.Jwt? && reply.Ok?
  {
    reply.access == Jwt("access", token.userId, token.sessionId, now, now + 1200) && reply.accessExpiresAt == now + 1200
  }

  /** The reply's refresh token is new, for the submitter, signed in second `now` for a day. */
  ghost predicate RefreshSignedAt(reply: Reply, token: Token, now: nat)
    requires token.Jwt? && reply.Ok?
  {
    && reply.refresh == Jwt("refresh", token.userId, token.sessionId, now, now + 86400)
    && reply.refreshExpiresAt == now + 86400
  }

  // ---------------------------------------------------------------- the statements one by one

  function Previous(iso: Isolation, s: State, i: nat, w: seq<Wait>, k: nat): State
    requires k < |w|
  {
    if k == 0 then s else After(iso, s, i, w, k - 1)
  }

  /** A sound state in which call `i` is a request with this token and address; `view` is the
      state at its first read. */
  ghost predicate Holds(s: State, i: nat, token: Token, ip: Option<string>, view: Option<Db>) {
    StateOk(s) && i < |s.calls| && s.calls[i].token == token && s.calls[i].ip == ip && s.calls[i].view == view
  }

  lemma OwnStepKeepsRequest(iso: Isolation, s: State, i: nat, w: Wait)
    requires i < |s.calls|
    ensures var s' := Step(iso, s, Of(i, Own(s.calls[i].phase, w)));
      && i < |s'.calls| && s'.calls[i].token == s.calls[i].token && s'.calls[i].ip == s.calls[i].ip
      && (s.calls[i].phase != LookingForRotated || w.fault != NoFault ==> s'.calls[i].view == s.calls[i].view)
      && (s.calls[i].phase.Done? ==> s' == s)
      && (!s.calls[i].phase.Done? && w.fault != NoFault ==> s'.calls[i].phase == Done(Failed(ServerError)))
  {
    hide FindRotated, FindSubmitted, FindSession, AfterSession;
    assert s.calls[i := s.calls[i]] == s.calls;
  }

  lemma StatementRuns(iso: Isolation, s: State, i: nat, w: seq<Wait>, k: nat, token: Token, ip: Option<string>,
                      v: Option<Db>)
    requires k < |w| && OthersLeaveEach(w, i) && Holds(Previous(iso, s, i, w, k), i, token, ip, v)
    ensures var p, b, a := Previous(iso, s, i, w, k), Before(iso, s, i, w, k), After(iso, s, i, w, k);
      && Holds(b, i, token, ip, v) && b.calls[i] == p.calls[i]
      && a == Step(iso, b, Of(i, Own(b.calls[i].phase, w[k])))
      && Holds(a, i, token, ip, a.calls[i].view)
      && (p.calls[i].phase != LookingForRotated || w[k].fault != NoFault ==> a.calls[i].view == v)
      && (p.calls[i].phase.Done? ==> a == b)
      && (!p.calls[i].phase.Done? && w[k].fault != NoFault ==> a.calls[i].phase == Done(Failed(ServerError)))
  {
    hide StateOk, Step, Own, Exec;
    var p, b := Previous(iso, s, i, w, k), Before(iso, s, i, w, k);
    assert Leaves(w[k].others, i);
    OthersRun(iso, p, i, w[k].others);
    StepKeeps(iso, b, Of(i, Own(b.calls[i].phase, w[k])));
    OwnStepKeepsRequest(iso, b, i, w[k]);
  }

  /** A call that is done stays as it is. */
  lemma {:induction false} StaysDone(iso: Isolation, s: State, i: nat, w: seq<Wait>, k: nat, n: nat,
                                     token: Token, ip: Option<string>, v: Option<Db>)
    requires k <= n < |w| && OthersLeaveEach(w, i) && Holds(After(iso, s, i, w, k), i, token, ip, v)
    requires After(iso, s, i, w, k).calls[i].phase.Done?
    ensures Holds(After(iso, s, i, w, n), i, token, ip, v)
    ensures After(iso, s, i, w, n).calls[i] == After(iso, s, i, w, k).calls[i]
    decreases n
  {
    hide StateOk, Step, After, Before, Own;
    if k < n {
      StaysDone(iso, s, i, w, k, n - 1, token, ip, v);
      StatementRuns(iso, s, i, w, n, token, ip, v);
    }
  }

  /** The first look-up: a replay exactly when a rotation of the token is stored. */
  lemma FirstLookUp(iso: Isolation, s: State, i: nat, w: Wait)
    requires StateOk(s) && i < |s.calls| && s.calls[i].phase == LookingForRotated && w.fault == NoFault
    ensures var c := Step(iso, s, Of(i, Own(s.calls[i].phase, w))).calls[i];
      && c.phase.LoadingSubmitted? && c.view == Some(s.db)
      && (c.phase.goal.Replay? <==> HasRotated(s.db.refreshes, Sha256Hex(s.calls[i].token)))
  {
  }

  /** The session look-up: refused exactly when the session does not accept; a replay answers,
      a first rotation goes on to insert, with tokens signed in the seconds it met. */
  lemma SessionLookUp(iso: Isolation, s: State, i: nat, w: Wait)
    requires StateOk(s) && i < |s.calls| && s.calls[i].phase.LoadingSession? && w.fault == NoFault
    ensures s.calls[i].token.Jwt?
    ensures var c := s.calls[i];
      var phase := Step(iso, s, Of(i, Own(c.phase, w))).calls[i].phase;
      if !SessionAccepts(ViewOf(iso, s.db, c), c.token, c.ip) then phase == Done(Failed(InvalidToken))
      else if c.phase.goal.Replay? then
        phase.Done? && phase.reply.Ok? && AccessSignedAt(phase.reply, c.token, w.signing.access)
      else RotationSignedAt(phase, c.token, w.signing)
  {
    SessionLookUpSignsNow(iso, s, i, w.signing.access, w.signing.refresh, w.signing.iv);
    assert CallOk(s.db, s.calls[i]);
    if s.calls[i].phase.goal.Replay? {
      ReplayAnswersIffAccepted(iso, s, i, s.calls[i].phase.goal.rotated,
                               w.signing.access, w.signing.refresh, w.signing.iv);
    }
  }

  /** The call is about to insert a rotation, with both tokens signed in these seconds. */
  ghost predicate RotationSignedAt(phase: Phase, token: Token, g: Signing)
    requires token.Jwt?
  {
    && phase.Inserting?
    && phase.access == Jwt("access", token.userId, token.sessionId, g.access, g.access + 1200)
    && phase.refresh == Jwt("refresh", token.userId, token.sessionId, g.refresh, g.refresh + 86400)
  }

  /** What a call in phase `phase` reads in state `s`. */
  lemma ReadsSeen(iso: Isolation, s: State, i: nat, w: seq<Wait>, k: nat, token: Token, ip: Option<string>)
    requires k < |w| && Holds(Before(iso, s, i, w, k), i, token, ip, Some(Before(iso, s, i, w, 0).db))
    ensures ViewOf(iso, Before(iso, s, i, w, k).db, Before(iso, s, i, w, k).calls[i]) == Seen(iso, s, i, w, k)
  {
    hide Before, StateOk;
  }

  /** Statements `k` and `k + 1` of a call that validates. */
  lemma Validation(iso: Isolation, s: State, i: nat, w: seq<Wait>, k: nat, token: Token, ip: Option<string>)
    requires 0 < k && k + 1 < |w| && OthersLeaveEach(w, i) && token.Jwt?
    requires Holds(Previous(iso, s, i, w, k), i, token, ip, Some(Before(iso, s, i, w, 0).db))
    requires Previous(iso, s, i, w, k).calls[i].phase.LoadingSubmitted?
    ensures Holds(After(iso, s, i, w, k + 1), i, token, ip, Some(Before(iso, s, i, w, 0).db))
    ensures var goal := Previous(iso, s, i, w, k).calls[i].phase.goal;
      var phase := After(iso, s, i, w, k + 1).calls[i].phase;
      var refusal := ValidationRefusal(Seen(iso, s, i, w, k), Seen(iso, s, i, w, k + 1), token, ip, w[k], w[k + 1]);
      if refusal.Some? then phase == Done(Failed(refusal.value))
      else if goal.Replay? then
        phase.Done? && phase.reply.Ok? && AccessSignedAt(phase.reply, token, w[k + 1].signing.access)
      else RotationSignedAt(phase, token, w[k + 1].signing)
  {
    hide StateOk, Step, After, Before, SessionAccepts, HasHash, AccessSignedAt, RotationSignedAt, Seen;
    var v := Some(Before(iso, s, i, w, 0).db);
    StatementRuns(iso, s, i, w, k, token, ip, v);
    ReadsSeen(iso, s, i, w, k, token, ip);
    SubmittedFoundIffStoredAndUnexpired(iso, Before(iso, s, i, w, k), i, w[k].dbNow);
    StatementRuns(iso, s, i, w, k + 1, token, ip, v);
    ReadsSeen(iso, s, i, w, k + 1, token, ip);
    var b := Before(iso, s, i, w, k + 1);
    if b.calls[i].phase.LoadingSession? && w[k + 1].fault == NoFault {
      SessionLookUp(iso, b, i, w[k + 1]);
    }
  }

  /** What an insert that is heard comes to. */
  lemma InsertStatement(iso: Isolation, s: State, i: nat, w: Wait, token: Token, g: Signing)
    requires StateOk(s) && i < |s.calls| && s.calls[i].token == token && token.Jwt? && w.fault == NoFault
    requires RotationSignedAt(s.calls[i].phase, token, g)
    ensures var rotated := HasRotated(s.db.refreshes, Sha256Hex(token));
      var repeated := SignedInSecond(s.db, token.sessionId, g.refresh);
      var phase := Step(iso, s, Of(i, Own(s.calls[i].phase, w))).calls[i].phase;
      if !rotated && !repeated then
        phase.Done? && phase.reply.Ok? && AccessSignedAt(phase.reply, token, g.access)
        && RefreshSignedAt(phase.reply, token, g.refresh)
      else if repeated && (rotated ==> w.report == RefreshHashKey) then phase == Done(Failed(DuplicateToken))
      else phase == LookingForWinner
  {
    hide StateOk, Step, SignedInSecond, HasRotated;
    InsertOutcomes(iso, s, i, w.report);
    InsertAnswersWithTheSignedTokens(iso, s, i, w.report);
  }

  /** The insert and, after a lost race, the look-up of the winner. */
  lemma InsertAndLookUp(iso: Isolation, s: State, i: nat, w: seq<Wait>, token: Token, ip: Option<string>)
    requires |w| == 7 && OthersLeaveEach(w, i) && token.Jwt?
    requires Holds(After(iso, s, i, w, 2), i, token, ip, Some(Before(iso, s, i, w, 0).db))
    requires RotationSignedAt(After(iso, s, i, w, 2).calls[i].phase, token, w[2].signing)
    ensures Holds(After(iso, s, i, w, 4), i, token, ip, Some(Before(iso, s, i, w, 0).db))
    ensures var inserting := Before(iso, s, i, w, 3).db;
      var rotated := HasRotated(inserting.refreshes, Sha256Hex(token));
      var repeated := SignedInSecond(inserting, token.sessionId, w[2].signing.refresh);
      var phase := After(iso, s, i, w, 4).calls[i].phase;
      if w[3].fault != NoFault then phase == Done(Failed(ServerError))
      else if !rotated && !repeated then
        phase.Done? && phase.reply.Ok? && AccessSignedAt(phase.reply, token, w[2].signing.access)
        && RefreshSignedAt(phase.reply, token, w[2].signing.refresh)
      else if repeated && (rotated ==> w[3].report == RefreshHashKey) then phase == Done(Failed(DuplicateToken))
      else if w[4].fault != NoFault then phase == Done(Failed(ServerError))
      else if iso == Snapshot then phase == Done(Failed(AlreadyRotated))
      else phase.LoadingSubmitted? && phase.goal.Replay?
  {
    hide StateOk, Step, After, Before, SignedInSecond, HasRotated, AccessSignedAt, RefreshSignedAt, RotationSignedAt;
    var v := Some(Before(iso, s, i, w, 0).db);
    RotationIsInserting(After(iso, s, i, w, 2).calls[i].phase, token, w[2].signing);
    StatementRuns(iso, s, i, w, 3, token, ip, v);
    if w[3].fault == NoFault {
      InsertStatement(iso, Before(iso, s, i, w, 3), i, w[3], token, w[2].signing);
    }
    StatementRuns(iso, s, i, w, 4, token, ip, v);
    var b := Before(iso, s, i, w, 4);
    if b.calls[i].phase == LookingForWinner && w[4].fault == NoFault {
      LoserFindsWinnerIffCommittedReads(iso, b, i);
    }
  }

  lemma RotationIsInserting(phase: Phase, token: Token, g: Signing)
    requires token.Jwt? && RotationSignedAt(phase, token, g)
    ensures phase.Inserting?
  {
  }

  /** The call's own rotation lost to one stored between its first look-up and its insert. */
  ghost predicate LostRace(iso: Isolation, s: State, i: nat, w: seq<Wait>, token: Token)
    requires |w| == 7
  {
    && !HasRotated(Before(iso, s, i, w, 0).db.refreshes, Sha256Hex(token))
    && HasRotated(Before(iso, s, i, w, 3).db.refreshes, Sha256Hex(token))
  }

  /** An answered call: its access token is signed in the second of the session look-up it last
      made, and if it rotated, its refresh token in the second of its first one. */
  ghost predicate AnswerFits(iso: Isolation, s: State, i: nat, w: seq<Wait>, token: Token, reply: Reply)
    requires token.Jwt? && reply.Ok? && |w| == 7
  {
    && AccessSignedAt(reply, token, if LostRace(iso, s, i, w, token) then w[6].signing.access else w[2].signing.access)
    && (!HasRotated(Before(iso, s, i, w, 0).db.refreshes, Sha256Hex(token)) && !LostRace(iso, s, i, w, token) ==>
          RefreshSignedAt(reply, token, w[2].signing.refresh))
  }

  /** A call that has passed its validation with a rotation to make. */
  lemma RotationIsAnsweredIff(iso: Isolation, s: State, i: nat, w: seq<Wait>, token: Token, ip: Option<string>)
    requires |w| == 7 && OthersLeaveEach(w, i) && token.Jwt?
    requires Holds(After(iso, s, i, w, 2), i, token, ip, Some(Before(iso, s, i, w, 0).db))
    requires RotationSignedAt(After(iso, s, i, w, 2).calls[i].phase, token, w[2].signing)
    requires !HasRotated(Before(iso, s, i, w, 0).db.refreshes, Sha256Hex(token))
    ensures Holds(After(iso, s, i, w, 6), i, token, ip, Some(Before(iso, s, i, w, 0).db))
    ensures var phase := After(iso, s, i, w, 6).calls[i].phase;
      && phase.Done?
      && match RotationRefusal(iso, s, i, w, token, ip)
         case None => phase.reply.Ok? && AnswerFits(iso, s, i, w, token, phase.reply)
         case Some(error) => phase.reply == Failed(error)
  {
    hide StateOk, Step, After, Before, SignedInSecond, HasRotated, AccessSignedAt, RefreshSignedAt, RotationSignedAt;
    hide ValidationRefusal, Seen;
    var v := Some(Before(iso, s, i, w, 0).db);
    InsertAndLookUp(iso, s, i, w, token, ip);
    if After(iso, s, i, w, 4).calls[i].phase.Done? {
      StaysDone(iso, s, i, w, 4, 6, token, ip, v);
    } else {
      Validation(iso, s, i, w, 5, token, ip);
    }
  }

  /** Whatever other requests do before each of its statements, whichever of them fail, and
      under either isolation level, an admitted call ends, and with the refusal that the tables
      it saw decide, or with none: it is then answered, with an access token signed just then,
      and the token of the one row rotated from its own. */
  lemma CallIsAnsweredIff(iso: Isolation, s: State, i: nat, w: seq<Wait>)
    requires StateOk(s) && i < |s.calls| && s.calls[i].phase == LookingForRotated
    requires |w| == 7 && OthersLeaveEach(w, i)
    ensures s.calls[i].token.Jwt?
    ensures var c, end := s.calls[i], After(iso, s, i, w, 6);
      && i < |end.calls| && end.calls[i].phase.Done?
      && var reply := end.calls[i].phase.reply;
      match Refusal(iso, s, i, w, c.token, c.ip)
      case Some(error) => reply == Failed(error)
      case None => reply.Ok? && AnswerFits(iso, s, i, w, c.token, reply) && IsRotated(end.db, c.token, reply)
  {
    hide StateOk, Step, After, Before, HasRotated, AnswerFits, ValidationRefusal, RotationRefusal, Seen, IsRotated;
    hide AccessSignedAt, RotationSignedAt;
    var c := s.calls[i];
    AdmittedIsJwt(s, i);
    StatementRuns(iso, s, i, w, 0, c.token, c.ip, None);
    if w[0].fault != NoFault {
      StaysDone(iso, s, i, w, 0, 6, c.token, c.ip, None);
    } else {
      FirstLookUp(iso, Before(iso, s, i, w, 0), i, w[0]);
      Validation(iso, s, i, w, 1, c.token, c.ip);
      if After(iso, s, i, w, 2).calls[i].phase.Done? {
        StaysDone(iso, s, i, w, 2, 6, c.token, c.ip, Some(Before(iso, s, i, w, 0).db));
        NotRotation(After(iso, s, i, w, 2).calls[i].phase, c.token, w[2].signing);
        if HasRotated(Before(iso, s, i, w, 0).db.refreshes, Sha256Hex(c.token)) {
          ReplayFits(iso, s, i, w, c.token, After(iso, s, i, w, 2).calls[i].phase.reply);
        }
      } else {
        RotationIsAnsweredIff(iso, s, i, w, c.token, c.ip);
      }
    }
    AnswerIsTheRotatedRow(After(iso, s, i, w, 6), i);
  }

  lemma NotRotation(phase: Phase, token: Token, g: Signing)
    requires token.Jwt? && phase.Done?
    ensures !RotationSignedAt(phase, token, g)
  {
  }

  lemma ReplayFits(iso: Isolation, s: State, i: nat, w: seq<Wait>, token: Token, reply: Reply)
    requires token.Jwt? && |w| == 7 && HasRotated(Before(iso, s, i, w, 0).db.refreshes, Sha256Hex(token))
    ensures reply.Ok? && AccessSignedAt(reply, token, w[2].signing.access) ==> AnswerFits(iso, s, i, w, token, reply)
  {
    hide Before, AccessSignedAt, HasRotated;
  }

  lemma AdmittedIsJwt(s: State, i: nat)
    requires StateOk(s) && i < |s.calls| && s.calls[i].phase == LookingForRotated
    ensures s.calls[i].token.Jwt? && s.calls[i].view == None
  {
    assert CallOk(s.db, s.calls[i]);
  }

  /** The reply carries the token of a stored row rotated from the submitted one. */
  ghost predicate IsRotated(db: Db, token: Token, reply: Reply)
    requires reply.Ok?
  {
    exists r :: r in db.refreshes && DecryptAesGcm(r.refreshEncrypted) == reply.refresh
      && r.endAt == reply.refreshExpiresAt && r.beforeRefreshHash == Some(Sha256Hex(token))
  }

  lemma AnswerIsTheRotatedRow(s: State, i: nat)
    requires StateOk(s) && i < |s.calls| && s.calls[i].phase.Done?
    ensures s.calls[i].phase.reply.Ok? ==> IsRotated(s.db, s.calls[i].token, s.calls[i].phase.reply)
  {
    assert CallOk(s.db, s.calls[i]);
    if s.calls[i].phase.reply.Ok? {
      var r :| r in s.db.refreshes && r.beforeRefreshHash == Some(Sha256Hex(s.calls[i].token))
        && DecryptAesGcm(r.refreshEncrypted) == s.calls[i].phase.reply.refresh;
      assert RowAgrees(s.db, r);
    }
  }

  // ---------------------------------------------------------------- from arrival to answer

  /** Serving a call to its end leaves it as its seven statements would. */
  lemma {:induction false} ServeIsAfter(iso: Isolation, s: State, i: nat, w: seq<Wait>, k: nat,
                                        token: Token, ip: Option<string>, v: Option<Db>)
    requires k < |w| && OthersLeaveEach(w, i) && Holds(Previous(iso, s, i, w, k), i, token, ip, v)
    ensures StateOk(After(iso, s, i, w, |w| - 1)) && i < |After(iso, s, i, w, |w| - 1).calls|
    ensures var end := Serve(iso, Previous(iso, s, i, w, k), i, w[k..]);
      && StateOk(end) && i < |end.calls| && end.calls[i] == After(iso, s, i, w, |w| - 1).calls[i]
      && end.calls[i].token == token
    decreases |w| - k
  {
    hide StateOk, Step, After, Before, Own, Exec, OthersLeaveEach;
    var p, a := Previous(iso, s, i, w, k), After(iso, s, i, w, k);
    StatementRuns(iso, s, i, w, k, token, ip, v);
    BeforeIsExec(iso, s, i, w, k);
    assert w[k..][0] == w[k] && w[k..][1..] == w[k + 1..];
    if p.calls[i].phase.Done? {
      StaysDone(iso, s, i, w, k, |w| - 1, token, ip, v);
    } else if k + 1 < |w| {
      ServeIsAfter(iso, s, i, w, k + 1, token, ip, a.calls[i].view);
    } else {
      assert w[k + 1..] == [];
      assert Serve(iso, a, i, []) == a;
    }
  }

  lemma BeforeIsExec(iso: Isolation, s: State, i: nat, w: seq<Wait>, k: nat)
    requires k < |w|
    ensures Before(iso, s, i, w, k) == Exec(iso, Previous(iso, s, i, w, k), w[k].others)
  {
    hide Exec, Step;
  }

  /** The same from arrival. A token that has expired by the server's clock, that is not signed
      by the server, or that is no refresh token with both ids is refused at once; any other
      call is decided by the tables. */
  lemma WholeCall(iso: Isolation, s: State, token: Token, ip: Option<string>, serverNow: nat, w: seq<Wait>)
    requires StateOk(s) && |w| == 7 && OthersLeaveEach(w, |s.calls|)
    ensures var i, arrived := |s.calls|, Step(iso, s, Arrive(token, ip, serverNow));
      var end := Serve(iso, arrived, i, w);
      && StateOk(end) && i < |end.calls| && end.calls[i].phase.Done?
      && var reply := end.calls[i].phase.reply;
      if token.Jwt? && token.exp <= serverNow then reply == Failed(ExpiredToken)
      else if !token.Jwt? || token.kind != "refresh" || token.userId == "" || token.sessionId == ""
      then reply == Failed(InvalidToken)
      else
        match Refusal(iso, arrived, i, w, token, ip)
        case Some(error) => reply == Failed(error)
        case None => reply.Ok? && AnswerFits(iso, arrived, i, w, token, reply) && IsRotated(end.db, token, reply)
  {
    hide StateOk, After, Before, Refusal, OthersLeaveEach, AnswerFits, IsRotated, Exec, Own;
    var i, arrived := |s.calls|, Step(iso, s, Arrive(token, ip, serverNow));
    StepKeeps(iso, s, Arrive(token, ip, serverNow));
    if !arrived.calls[i].phase.Done? {
      AdmittedIsJwt(arrived, i);
      ServeIsAfter(iso, arrived, i, w, 0, token, ip, None);
      assert w[0..] == w;
      CallIsAnsweredIff(iso, arrived, i, w);
      AnswerIsTheRotatedRow(Serve(iso, arrived, i, w), i);
    }
  }

  /** Serving in two parts. */
  lemma {:induction false} ServeAppend(iso: Isolation, s: State, i: nat, a: seq<Wait>, b: seq<Wait>)
    ensures Serve(iso, s, i, a + b) == Serve(iso, Serve(iso, s, i, a), i, b)
    decreases |a|
  {
    hide Step, Own, Exec;
    if a == [] {
      assert a + b == b;
    } else if i < |s.calls| && !s.calls[i].phase.Done? {
      assert (a + b)[0] == a[0] && (a + b)[1..] == a[1..] + b;
      var t := Exec(iso, s, a[0].others);
      ServeAppend(iso, if i < |t.calls| then Step(iso, t, Of(i, Own(t.calls[i].phase, a[0]))) else t, i, a[1..], b);
    }
  }
}
