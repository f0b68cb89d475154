/**
 Refresh calls among arbitrary other statements: the replay of an answer already given, a
 client's walk along the chain, the retry after an answer was lost, and exactly when and how
 a whole call is answered.
 */
module RefreshAmongOthers {
  import opened Optional
  import opened Tokens
  import opened UserTables
  import opened RefreshProtocol
  import opened RefreshInvariant
  import opened RefreshTheorems
  import opened RefreshOutcomes
  import opened RefreshReplay

  // ---------------------------------------------------------------- a replay

  /** Chains only grow at their end. */
  lemma {:induction false} ChainPrefix(a: seq<RefreshRow>, b: seq<RefreshRow>, id: string)
    requires a <= b
    ensures Chain(a, id) <= Chain(b, id)
    decreases |b|
  {
    if a != b {
      ChainPrefix(a, b[..|b| - 1], id);
    }
  }

  /** The clock readings and random value that a call signs with. */
  datatype Signing = Signing(access: nat, refresh: nat, iv: nat)

  /** The first three statements of a call, with others' statements before the second and the
      third; the first result is the state its session look-up sees, the second the state
      after it. */
  function ReplayRun(iso: Isolation, s: State, i: nat, others: (seq<Action>, seq<Action>), dbNow: int, g: Signing)
    : (State, State)
  {
    var s1 := Step(iso, s, Of(i, FindExisting));
    var s2 := Step(iso, Exec(iso, s1, others.0), Of(i, LoadSubmitted(dbNow)));
    var s3 := Exec(iso, s2, others.1);
    (s3, Step(iso, s3, Of(i, LoadSession(g.access, g.refresh, g.iv))))
  }

  lemma OthersRun(iso: Isolation, s: State, i: nat, others: seq<Action>)
    requires StateOk(s) && i < |s.calls| && Leaves(others, i)
    ensures var s' := Exec(iso, s, others);
      && StateOk(s') && Older(s.db, s'.db) && i < |s'.calls| && s'.calls[i] == s.calls[i]
  {
    Untouched(iso, s, others, i);
    ExecKeeps(iso, s, others);
  }

  /** The first statement of a call finds the row rotated from its token. */
  lemma FindsRotated(iso: Isolation, s: State, i: nat, r: RefreshRow)
    requires StateOk(s) && i < |s.calls| && s.calls[i].phase == LookingForRotated
    requires r in s.db.refreshes && r.beforeRefreshHash == Some(Sha256Hex(s.calls[i].token))
    ensures var s1 := Step(iso, s, Of(i, FindExisting));
      && StateOk(s1) && s1.db == s.db
      && s1.calls == s.calls[i := s.calls[i].(view := Some(s.db), phase := LoadingSubmitted(Replay(r)))]
  {
    StepKeeps(iso, s, Of(i, FindExisting));
    RotatedRowIsUnique(s.db.refreshes, FindRotated(s.db.refreshes, Sha256Hex(s.calls[i].token)).value, r);
  }

  /** The second statement of a replay passes exactly while the submitted token is unexpired. */
  lemma ReplayLoads(iso: Isolation, s: State, i: nat, r: RefreshRow, dbNow: int)
    requires StateOk(s) && i < |s.calls| && s.calls[i].phase == LoadingSubmitted(Replay(r))
    requires r in ViewOf(iso, s.db, s.calls[i]).refreshes
    ensures s.calls[i].token.Jwt?
    ensures var s1 := Step(iso, s, Of(i, LoadSubmitted(dbNow)));
      && StateOk(s1) && s1.db == s.db
      && s1.calls == s.calls[i := s.calls[i].(phase :=
           if dbNow < s.calls[i].token.exp then LoadingSession(Replay(r)) else Done(Failed(InvalidToken)))]
  {
    hide DbOk;
    var c := s.calls[i];
    assert CallOk(s.db, c);
    ViewIsOk(iso, s.db, c);
    RotatedInViewIsStored(ViewOf(iso, s.db, c), r, c.token);
    SubmittedFoundIffStoredAndUnexpired(iso, s, i, dbNow);
    StepKeeps(iso, s, Of(i, LoadSubmitted(dbNow)));
  }

  lemma ViewIsOk(iso: Isolation, db: Db, c: Call)
    requires DbOk(db) && CallOk(db, c)
    ensures DbOk(ViewOf(iso, db, c))
  {
  }

  lemma RotatedInViewIsStored(view: Db, r: RefreshRow, token: Token)
    requires DbOk(view) && r in view.refreshes && r.beforeRefreshHash == Some(Sha256Hex(token))
    ensures HasHash(view.refreshes, Sha256Hex(token))
  {
    RotatedRowKeepsTheSession(view, r, token);
  }

  /** Once a rotation of its token is stored, a call answers, under either isolation level and
      among arbitrary other statements, with the rotated row's token and expiry, exactly when
      its token is unexpired and its reads show the session accepting it. Every failure is an
      invalid token, and none of its statements changes a row. */
  lemma ReplayConverges(iso: Isolation, s: State, i: nat, others: (seq<Action>, seq<Action>), dbNow: int, g: Signing,
                        r: RefreshRow)
    requires StateOk(s) && i < |s.calls| && s.calls[i].phase == LookingForRotated
    requires r in s.db.refreshes && r.beforeRefreshHash == Some(Sha256Hex(s.calls[i].token))
    requires Leaves(others.0, i) && Leaves(others.1, i)
    ensures s.calls[i].token.Jwt?
    ensures var (before, after) := ReplayRun(iso, s, i, others, dbNow, g);
      && i < |before.calls| && i < |after.calls| && after.calls[i].phase.Done?
      && var c, reply := s.calls[i], after.calls[i].phase.reply;
      && (reply.Ok? <==> dbNow < c.token.exp && SessionAccepts(ViewOf(iso, before.db, before.calls[i]), c.token, c.ip))
      && (reply.Ok? ==> reply.refresh == DecryptAesGcm(r.refreshEncrypted) && reply.refreshExpiresAt == r.endAt)
      && (reply.Failed? ==> reply.error == InvalidToken)
    ensures var (before, after) := ReplayRun(iso, s, i, others, dbNow, g);
      var s1 := Step(iso, s, Of(i, FindExisting));
      var s2 := Exec(iso, s1, others.0);
      && s1.db == s.db && Step(iso, s2, Of(i, LoadSubmitted(dbNow))).db == s2.db && after.db == before.db
      && StateOk(after) && Older(s.db, after.db)
      && before.calls[i].view == Some(s.db)
  {
    hide StateOk, Exec, Older, DbOk;
    FindsRotated(iso, s, i, r);
    var s1 := Step(iso, s, Of(i, FindExisting));
    OthersRun(iso, s1, i, others.0);
    var s2 := Exec(iso, s1, others.0);
    StillThere(s.db, s2.db, r);
    ReplayLoads(iso, s2, i, r, dbNow);
    var s3 := Step(iso, s2, Of(i, LoadSubmitted(dbNow)));
    OthersRun(iso, s3, i, others.1);
    var before := Exec(iso, s3, others.1);
    OlderTransAll(s.db, s2.db, before.db);
    LastStatement(iso, before, i, g);
    if dbNow < s.calls[i].token.exp {
      ReplayAnswersIffAccepted(iso, before, i, r, g.access, g.refresh, g.iv);
    }
  }

  lemma StillThere(v: Db, db: Db, r: RefreshRow)
    requires Older(v, db) && r in v.refreshes
    ensures r in db.refreshes
  {
  }

  lemma OlderTransAll(a: Db, b: Db, c: Db)
    requires Older(a, b) && Older(b, c)
    ensures Older(a, c)
  {
  }

  lemma LastStatement(iso: Isolation, s: State, i: nat, g: Signing)
    requires StateOk(s) && i < |s.calls|
    ensures var s' := Step(iso, s, Of(i, LoadSession(g.access, g.refresh, g.iv)));
      StateOk(s') && s'.db == s.db && |s'.calls| == |s.calls| && (s.calls[i].phase.Done? ==> s' == s)
  {
    hide StateOk, AfterSession, FindSession;
    StepKeeps(iso, s, Of(i, LoadSession(g.access, g.refresh, g.iv)));
    assert s.calls[i := s.calls[i]] == s.calls;
  }

  /** So away from the tip a call answers with the token of the next row of the chain as it was
      when the call looked, whatever others append meanwhile. */
  lemma ReplayAnswersWithTheNextRow(iso: Isolation, s: State, i: nat, others: (seq<Action>, seq<Action>), dbNow: int,
                                    g: Signing, id: string, p: nat)
    requires StateOk(s) && i < |s.calls| && s.calls[i].phase == LookingForRotated && id in s.db.sessions
    requires p + 1 < |Chain(s.db.refreshes, id)| && s.calls[i].token == StoredToken(Chain(s.db.refreshes, id)[p])
    requires Leaves(others.0, i) && Leaves(others.1, i)
    ensures var chain := Chain(s.db.refreshes, id);
      var (before, after) := ReplayRun(iso, s, i, others, dbNow, g);
      && i < |before.calls| && i < |after.calls| && after.calls[i].phase.Done? && s.calls[i].token.Jwt?
      && var c, reply := s.calls[i], after.calls[i].phase.reply;
      && (reply.Ok? <==> dbNow < c.token.exp && SessionAccepts(ViewOf(iso, before.db, before.calls[i]), c.token, c.ip))
      && (reply.Ok? ==> reply.refresh == StoredToken(chain[p + 1]) && reply.refreshExpiresAt == chain[p + 1].endAt)
      && StateOk(after) && Older(s.db, after.db) && before.db == after.db && before.calls[i].view == Some(s.db)
      && chain <= Chain(after.db.refreshes, id)
  {
    hide ReplayRun, Chain, DbOk;
    NextIsRotated(s.db, id, p);
    ReplayConverges(iso, s, i, others, dbNow, g, Chain(s.db.refreshes, id)[p + 1]);
    ChainPrefix(s.db.refreshes, ReplayRun(iso, s, i, others, dbNow, g).1.db.refreshes, id);
  }

  lemma NextIsRotated(db: Db, id: string, p: nat)
    requires DbOk(db) && id in db.sessions && p + 1 < |Chain(db.refreshes, id)|
    ensures var chain := Chain(db.refreshes, id);
      && chain[p + 1] in db.refreshes
      && chain[p + 1].beforeRefreshHash == Some(Sha256Hex(StoredToken(chain[p])))
  {
    ChainToken(db, id, p);
    RotatedIsNext(db, id, p);
  }

  /** A rotation that took effect although its caller saw an error is not lost: whatever happens
      in between, a later request with the same token is answered, if it is, with the very
      token that was signed for the first. */
  lemma RetryAfterLostAnswer(iso: Isolation, s: State, i: nat, between: seq<Action>, j: nat,
                             others: (seq<Action>, seq<Action>), dbNow: int, g: Signing)
    requires StateOk(s) && i < |s.calls| && s.calls[i].phase.Inserting?
    requires InsertRefresh(s.db, s.calls[i].phase.row, RefreshHashKey).Inserted?
    requires var t := Exec(iso, Step(iso, s, Of(i, InsertUnanswered)), between);
      j < |t.calls| && t.calls[j].phase == LookingForRotated && t.calls[j].token == s.calls[i].token
    requires Leaves(others.0, j) && Leaves(others.1, j)
    ensures Step(iso, s, Of(i, InsertUnanswered)).calls[i].phase == Done(Failed(ServerError))
    ensures var t := Exec(iso, Step(iso, s, Of(i, InsertUnanswered)), between);
      var (before, after) := ReplayRun(iso, t, j, others, dbNow, g);
      && t.calls[j].token.Jwt? && j < |before.calls| && j < |after.calls| && after.calls[j].phase.Done?
      && var c, reply := t.calls[j], after.calls[j].phase.reply;
      && (reply.Ok? <==> dbNow < c.token.exp && SessionAccepts(ViewOf(iso, before.db, before.calls[j]), c.token, c.ip))
      && (reply.Ok? ==> reply.refresh == s.calls[i].phase.refresh)
  {
    hide ReplayRun, Exec, DbOk;
    var row := s.calls[i].phase.row;
    var s1 := Step(iso, s, Of(i, InsertUnanswered));
    assert CallOk(s.db, s.calls[i]);
    assert s1.db.refreshes[|s1.db.refreshes| - 1] == row;
    StepKeeps(iso, s, Of(i, InsertUnanswered));
    ExecKeeps(iso, s1, between);
    var t := Exec(iso, s1, between);
    StillThere(s1.db, t.db, row);
    ReplayConverges(iso, t, j, others, dbNow, g, row);
  }

  // ---------------------------------------------------------------- a client's walk

  /** One request of a client: what others do before it arrives, before its first statement,
      and before the next two; and the clocks it meets. */
  datatype Turn = Turn(
    ip: Option<string>,
    serverNow: nat,
    before: seq<Action>,
    first: seq<Action>,
    second: seq<Action>,
    third: seq<Action>,
    dbNow: int,
    signing: Signing)

  /** The index of the request's call. */
  function Caller(iso: Isolation, s: State, t: Turn): nat {
    |Exec(iso, s, t.before).calls|
  }

  function Arriving(iso: Isolation, s: State, token: Token, t: Turn): State {
    Step(iso, Exec(iso, s, t.before), Arrive(token, t.ip, t.serverNow))
  }

  /** The states before and after the last statement of the request. */
  function TurnRun(iso: Isolation, s: State, token: Token, t: Turn): (State, State) {
    var looking := Exec(iso, Arriving(iso, s, token, t), t.first);
    ReplayRun(iso, looking, Caller(iso, s, t), (t.second, t.third), t.dbNow, t.signing)
  }

  predicate OthersLeave(iso: Isolation, s: State, t: Turn) {
    var i := Caller(iso, s, t);
    Leaves(t.first, i) && Leaves(t.second, i) && Leaves(t.third, i)
  }

  /** Call `i` has been answered with a token. */
  predicate Answered(s: State, i: nat) {
    i < |s.calls| && s.calls[i].phase.Done? && s.calls[i].phase.reply.Ok?
  }

  /** A client that sends one request after another and moves on to every token it is given:
      the state at the end, the token it holds, and how many of its requests were answered. */
  function Walk(iso: Isolation, s: State, token: Token, turns: seq<Turn>): (State, Token, nat)
    decreases |turns|
  {
    if turns == [] then (s, token, 0)
    else
      var i, s' := Caller(iso, s, turns[0]), TurnRun(iso, s, token, turns[0]).1;
      if Answered(s', i) then
        var (end, held, n) := Walk(iso, s', s'.calls[i].phase.reply.refresh, turns[1..]);
        (end, held, n + 1)
      else Walk(iso, s', token, turns[1..])
  }

  ghost predicate OthersLeaveWalk(iso: Isolation, s: State, token: Token, turns: seq<Turn>)
    decreases |turns|
  {
    turns == [] ||
    (OthersLeave(iso, s, turns[0]) &&
     var i, s' := Caller(iso, s, turns[0]), TurnRun(iso, s, token, turns[0]).1;
     OthersLeaveWalk(iso, s', if Answered(s', i) then s'.calls[i].phase.reply.refresh else token, turns[1..]))
  }

  /** What a request with an expired token, or with blank ids, comes to. */
  lemma RefusedOnArrival(iso: Isolation, s: State, i: nat, others: (seq<Action>, seq<Action>), dbNow: int, g: Signing)
    requires StateOk(s) && i < |s.calls| && s.calls[i].phase.Done? && Leaves(others.0, i) && Leaves(others.1, i)
    ensures var after := ReplayRun(iso, s, i, others, dbNow, g).1;
      StateOk(after) && i < |after.calls| && after.calls[i] == s.calls[i] && Older(s.db, after.db)
  {
    hide StateOk, Exec, Older;
    assert s.calls[i := s.calls[i]] == s.calls;
    var s1 := Step(iso, s, Of(i, FindExisting));
    assert s1 == s;
    OthersRun(iso, s, i, others.0);
    var s2 := Exec(iso, s, others.0);
    assert s2.calls[i := s2.calls[i]] == s2.calls;
    assert Step(iso, s2, Of(i, LoadSubmitted(dbNow))) == s2;
    OthersRun(iso, s2, i, others.1);
    var s3 := Exec(iso, s2, others.1);
    OlderTransAll(s.db, s2.db, s3.db);
    LastStatement(iso, s3, i, g);
  }

  /** The state the request's first statement sees. */
  lemma Arrives(iso: Isolation, s: State, token: Token, t: Turn)
    requires StateOk(s) && OthersLeave(iso, s, t)
    ensures var i, looking := Caller(iso, s, t), Exec(iso, Arriving(iso, s, token, t), t.first);
      && StateOk(looking) && Older(s.db, looking.db) && i < |looking.calls|
      && looking.calls[i] == Admit(token, t.ip, t.serverNow)
  {
    hide StateOk, Exec, Older;
    ExecKeeps(iso, s, t.before);
    var s0 := Exec(iso, s, t.before);
    StepKeeps(iso, s0, Arrive(token, t.ip, t.serverNow));
    var s1 := Arriving(iso, s, token, t);
    OthersRun(iso, s1, |s0.calls|, t.first);
    OlderTransAll(s.db, s0.db, s1.db);
    OlderTransAll(s.db, s1.db, Exec(iso, s1, t.first).db);
  }

  /** What the request needs to be answered: an unexpired refresh token by both clocks, and a
      session that its reads show accepting it. */
  predicate Accepts(iso: Isolation, before: State, i: nat, token: Token, t: Turn)
    requires i < |before.calls| && token.Jwt?
  {
    && Verify(token, t.serverNow) == Accepted && IsRefreshToken(token) && t.dbNow < token.exp
    && SessionAccepts(ViewOf(iso, before.db, before.calls[i]), token, t.ip)
  }

  /** One request with the token at position `p` of a chain that goes on: it is answered exactly
      when accepted, and then with the token at position `p + 1`. */
  lemma TurnAnswersIffAccepted(iso: Isolation, s: State, id: string, p: nat, t: Turn)
    requires StateOk(s) && id in s.db.sessions && p + 1 < |Chain(s.db.refreshes, id)| && OthersLeave(iso, s, t)
    ensures var chain := Chain(s.db.refreshes, id);
      var token, i := StoredToken(chain[p]), Caller(iso, s, t);
      var (before, after) := TurnRun(iso, s, token, t);
      && token.Jwt? && i < |before.calls| && (Answered(after, i) <==> Accepts(iso, before, i, token, t))
      && (Answered(after, i) ==> after.calls[i].phase.reply.refresh == StoredToken(chain[p + 1]))
      && StateOk(after) && Older(s.db, after.db) && chain <= Chain(after.db.refreshes, id)
  {
    hide StateOk, Exec, Older, Chain, ReplayRun, SessionAccepts, DbOk, Arriving;
    var chain := Chain(s.db.refreshes, id);
    var token, i := StoredToken(chain[p]), Caller(iso, s, t);
    Arrives(iso, s, token, t);
    var looking := Exec(iso, Arriving(iso, s, token, t), t.first);
    ChainOnceOlder(s, looking, id, p);
    if looking.calls[i].phase.Done? {
      RefusedOnArrival(iso, looking, i, (t.second, t.third), t.dbNow, t.signing);
      RunKeepsIndex(iso, looking, i, (t.second, t.third), t.dbNow, t.signing);
    } else {
      ReplayAnswersWithTheNextRow(iso, looking, i, (t.second, t.third), t.dbNow, t.signing, id, p);
    }
    var after := TurnRun(iso, s, token, t).1;
    OlderTransAll(s.db, looking.db, after.db);
    RowsOfOlder(s.db, after.db);
    ChainPrefix(s.db.refreshes, after.db.refreshes, id);
  }

  lemma RowsOfOlder(v: Db, db: Db)
    requires Older(v, db)
    ensures v.refreshes <= db.refreshes && forall id | id in v.sessions :: id in db.sessions
  {
  }

  lemma ChainOnceOlder(s: State, s': State, id: string, p: nat)
    requires StateOk(s) && StateOk(s') && Older(s.db, s'.db)
    requires id in s.db.sessions && p + 1 < |Chain(s.db.refreshes, id)|
    ensures var chain, chain' := Chain(s.db.refreshes, id), Chain(s'.db.refreshes, id);
      && id in s'.db.sessions && p + 1 < |chain'| && chain'[p] == chain[p] && chain'[p + 1] == chain[p + 1]
      && StoredToken(chain[p]).Jwt?
  {
    hide Chain;
    ChainPrefix(s.db.refreshes, s'.db.refreshes, id);
    ChainToken(s.db, id, p);
  }

  lemma RunKeepsIndex(iso: Isolation, s: State, i: nat, others: (seq<Action>, seq<Action>), dbNow: int, g: Signing)
    requires StateOk(s) && i < |s.calls| && s.calls[i].phase.Done? && Leaves(others.0, i) && Leaves(others.1, i)
    ensures i < |ReplayRun(iso, s, i, others, dbNow, g).0.calls|
  {
    hide StateOk, Exec, Older;
    assert s.calls[i := s.calls[i]] == s.calls;
    OthersRun(iso, s, i, others.0);
    var s2 := Exec(iso, s, others.0);
    assert s2.calls[i := s2.calls[i]] == s2.calls;
    OthersRun(iso, s2, i, others.1);
  }

  /** Whatever others do during and between a client's requests, whatever the clocks and whether
      or not the session is revoked meanwhile: after any number of requests the client holds
      the token of the starting chain as many positions on as it was answered. */
  lemma {:induction false} WalkAmongOthers(iso: Isolation, s: State, id: string, p: nat, turns: seq<Turn>)
    requires StateOk(s) && id in s.db.sessions && p + |turns| < |Chain(s.db.refreshes, id)|
    requires OthersLeaveWalk(iso, s, StoredToken(Chain(s.db.refreshes, id)[p]), turns)
    ensures var chain := Chain(s.db.refreshes, id);
      var (end, held, n) := Walk(iso, s, StoredToken(chain[p]), turns);
      && n <= |turns| && held == StoredToken(chain[p + n])
      && StateOk(end) && Older(s.db, end.db) && chain <= Chain(end.db.refreshes, id)
    decreases |turns|
  {
    hide StateOk, Older, Chain, TurnRun, Caller, Accepts, StoredToken, OthersLeave, SessionAccepts;
    OlderRefl(s.db);
    if turns != [] {
      var chain := Chain(s.db.refreshes, id);
      var token, i := StoredToken(chain[p]), Caller(iso, s, turns[0]);
      TurnAnswersIffAccepted(iso, s, id, p, turns[0]);
      var s' := TurnRun(iso, s, token, turns[0]).1;
      RowsOfOlder(s.db, s'.db);
      var q := if Answered(s', i) then p + 1 else p;
      WalkAmongOthers(iso, s', id, q, turns[1..]);
      OlderTransAll(s.db, s'.db, Walk(iso, s, token, turns).0.db);
    }
  }

  lemma OlderRefl(db: Db)
    ensures Older(db, db)
  {
  }

  // ---------------------------------------------------------------- every request answered

  predicate NoRevocation(actions: seq<Action>, id: string) {
    Revoke(id) !in actions
  }

  predicate RevokesNot(t: Turn, id: string) {
    NoRevocation(t.before, id) && NoRevocation(t.first, id) && NoRevocation(t.second, id) && NoRevocation(t.third, id)
  }

  /** The request comes from address `ip` while a token valid until `exp` is unexpired by both
      clocks, and nobody revokes the session meanwhile. */
  predicate MeetsLiveToken(t: Turn, id: string, ip: Option<string>, exp: int) {
    t.ip == ip && RevokesNot(t, id) && t.serverNow < exp && t.dbNow < exp
  }

  lemma {:induction false} StaysLive(iso: Isolation, s: State, actions: seq<Action>, id: string)
    requires id in s.db.sessions && NoRevocation(actions, id)
    ensures id in Exec(iso, s, actions).db.sessions && Exec(iso, s, actions).db.sessions[id] == s.db.sessions[id]
    decreases |actions|
  {
    if actions != [] {
      StepStaysLive(iso, s, actions[0], id);
      assert forall a | a in actions[1..] :: a in actions;
      StaysLive(iso, Step(iso, s, actions[0]), actions[1..], id);
    }
  }

  lemma StepStaysLive(iso: Isolation, s: State, a: Action, id: string)
    requires id in s.db.sessions && a != Revoke(id)
    ensures id in Step(iso, s, a).db.sessions && Step(iso, s, a).db.sessions[id] == s.db.sessions[id]
  {
    hide AfterSession, FindSession, FindRotated, FindSubmitted, Admit;
  }

  /** A live session that is not revoked during a request accepts it. */
  lemma LiveTurnIsAccepted(iso: Isolation, s: State, id: string, p: nat, t: Turn)
    requires StateOk(s) && Usable(s.db, id, t.ip) && p + 1 < |Chain(s.db.refreshes, id)|
    requires OthersLeave(iso, s, t) && RevokesNot(t, id)
    requires t.serverNow < Chain(s.db.refreshes, id)[p].endAt && t.dbNow < Chain(s.db.refreshes, id)[p].endAt
    ensures var after := TurnRun(iso, s, StoredToken(Chain(s.db.refreshes, id)[p]), t).1;
      && Answered(after, Caller(iso, s, t)) && Usable(after.db, id, t.ip)
      && after.db.sessions[id] == s.db.sessions[id]
  {
    hide StateOk, Exec, Older, Chain, DbOk, Step;
    var chain := Chain(s.db.refreshes, id);
    var token, i := StoredToken(chain[p]), Caller(iso, s, t);
    ChainToken(s.db, id, p) by { UsableIsOk(s, id, t.ip); }
    TurnAnswersIffAccepted(iso, s, id, p, t);
    Arrives(iso, s, token, t);
    StaysLive(iso, s, t.before, id);
    StepStaysLive(iso, Exec(iso, s, t.before), Arrive(token, t.ip, t.serverNow), id);
    StaysLive(iso, Arriving(iso, s, token, t), t.first, id);
    var looking := Exec(iso, Arriving(iso, s, token, t), t.first);
    ChainOnceOlder(s, looking, id, p);
    ReplayAnswersWithTheNextRow(iso, looking, i, (t.second, t.third), t.dbNow, t.signing, id, p);
    ReplayKeepsSession(iso, looking, i, (t.second, t.third), t.dbNow, t.signing, id);
    StateIsOk(TurnRun(iso, s, token, t).1);
  }

  lemma UsableIsOk(s: State, id: string, ip: Option<string>)
    requires StateOk(s) && Usable(s.db, id, ip)
    ensures RowsAgree(s.db)
  {
  }

  lemma StateIsOk(s: State)
    requires StateOk(s)
    ensures DbOk(s.db)
  {
  }

  lemma ReplayKeepsSession(iso: Isolation, s: State, i: nat, others: (seq<Action>, seq<Action>), dbNow: int, g: Signing,
                           id: string)
    requires id in s.db.sessions && NoRevocation(others.0, id) && NoRevocation(others.1, id)
    ensures var (before, after) := ReplayRun(iso, s, i, others, dbNow, g);
      && id in before.db.sessions && before.db.sessions[id] == s.db.sessions[id]
      && id in after.db.sessions && after.db.sessions[id] == s.db.sessions[id]
  {
    hide Step, Exec;
    StepStaysLive(iso, s, Of(i, FindExisting), id);
    var s1 := Step(iso, s, Of(i, FindExisting));
    StaysLive(iso, s1, others.0, id);
    StepStaysLive(iso, Exec(iso, s1, others.0), Of(i, LoadSubmitted(dbNow)), id);
    var s2 := Step(iso, Exec(iso, s1, others.0), Of(i, LoadSubmitted(dbNow)));
    StaysLive(iso, s2, others.1, id);
    StepStaysLive(iso, Exec(iso, s2, others.1), Of(i, LoadSession(g.access, g.refresh, g.iv)), id);
  }

  /** From any unexpired token of a live session that is not revoked meanwhile, every request is
      answered, whatever else others do: k requests move the client k positions on. */
  lemma {:induction false} LiveWalkIsAnsweredThroughout(iso: Isolation, s: State, id: string, p: nat,
                                                        ip: Option<string>, turns: seq<Turn>)
    requires StateOk(s) && Usable(s.db, id, ip) && p + |turns| < |Chain(s.db.refreshes, id)|
    requires ExpiryNeverDecreases(Chain(s.db.refreshes, id)[..p + |turns| + 1])
    requires OthersLeaveWalk(iso, s, StoredToken(Chain(s.db.refreshes, id)[p]), turns)
    requires forall t | t in turns :: MeetsLiveToken(t, id, ip, Chain(s.db.refreshes, id)[p].endAt)
    ensures var chain := Chain(s.db.refreshes, id);
      var (end, held, n) := Walk(iso, s, StoredToken(chain[p]), turns);
      n == |turns| && held == StoredToken(chain[p + |turns|]) && Usable(end.db, id, ip)
    decreases |turns|
  {
    hide StateOk, Older, Chain, TurnRun, Caller, StoredToken, OthersLeave, SessionAccepts, RevokesNot, Usable;
    if turns != [] {
      var chain := Chain(s.db.refreshes, id);
      var token, i := StoredToken(chain[p]), Caller(iso, s, turns[0]);
      assert turns[0] in turns && forall t | t in turns[1..] :: t in turns;
      SessionOfUsable(s.db, id, ip);
      TurnAnswersIffAccepted(iso, s, id, p, turns[0]);
      LiveTurnIsAccepted(iso, s, id, p, turns[0]);
      var s' := TurnRun(iso, s, token, turns[0]).1;
      var chain' := Chain(s'.db.refreshes, id);
      assert chain'[..p + |turns| + 1] == chain[..p + |turns| + 1];
      assert chain[..p + |turns| + 1][p].endAt <= chain[..p + |turns| + 1][p + 1].endAt;
      LiveWalkIsAnsweredThroughout(iso, s', id, p + 1, ip, turns[1..]);
    }
  }

  lemma SessionOfUsable(db: Db, id: string, ip: Option<string>)
    requires Usable(db, id, ip)
    ensures id in db.sessions
  {
  }

  /** So as many requests as the token is away from the tip reach the tip, whatever others do;
      and if nobody else has rotated it by then, the next undisturbed request does, unless a
      token of the session was signed in its second. */
  lemma ReplaysReachTheTipThenRotate(iso: Isolation, s: State, id: string, p: nat, ip: Option<string>, turns: seq<Turn>,
                                     last: Moment)
    requires StateOk(s) && Usable(s.db, id, ip) && ExpiryNeverDecreases(Chain(s.db.refreshes, id))
    requires p + |turns| + 1 == |Chain(s.db.refreshes, id)|
    requires OthersLeaveWalk(iso, s, StoredToken(Chain(s.db.refreshes, id)[p]), turns)
    requires forall t | t in turns :: MeetsLiveToken(t, id, ip, Chain(s.db.refreshes, id)[p].endAt)
    requires last.server < Chain(s.db.refreshes, id)[p].endAt && last.db < Chain(s.db.refreshes, id)[p].endAt
    ensures var chain := Chain(s.db.refreshes, id);
      var (end, held, n) := Walk(iso, s, StoredToken(chain[p]), turns);
      && held == StoredToken(chain[|chain| - 1]) && id in end.db.sessions
      && (Chain(end.db.refreshes, id) == chain && !SignedInSecond(end.db, id, last.refresh) ==>
            RotatesTip(iso, end.db, id, ip, last))
  {
    hide Walk, Chain, StateOk, OthersLeaveWalk, RevokesNot, Usable, SignedInSecond, RotatesTip, StoredToken;
    var chain := Chain(s.db.refreshes, id);
    assert chain[..p + |turns| + 1] == chain;
    LiveWalkIsAnsweredThroughout(iso, s, id, p, ip, turns);
    var end := Walk(iso, s, StoredToken(chain[p]), turns).0;
    SessionOfUsable(end.db, id, ip);
    if Chain(end.db.refreshes, id) == chain && !SignedInSecond(end.db, id, last.refresh) {
      TipRotates(iso, end.db, id, ip, last);
    }
  }
}
