/** What a revoked session still allows: at most one row more, and no token for late requests. */
module RefreshRevocation {
  import opened Optional
  import opened Tokens
  import opened UserTables
  import opened RefreshProtocol
  import opened RefreshInvariant

  ghost predicate Revoked(db: Db, id: string) {
    id in db.sessions && db.sessions[id].isDelete
  }

  ghost predicate LiveIn(db: Db, id: string) {
    id in db.sessions && !db.sessions[id].isDelete
  }

  /** The call is past its session lookup, or its snapshot still shows session `id` alive. */
  ghost predicate MayRotate(iso: Isolation, c: Call, id: string) {
    match c.phase
    case Inserting(_, _, row) => row.sessionId == id
    case LoadingSubmitted(FirstRotation) => SnapshotShowsLive(iso, c, id)
    case LoadingSession(FirstRotation) => SnapshotShowsLive(iso, c, id)
    case _ => false
  }

  ghost predicate SnapshotShowsLive(iso: Isolation, c: Call, id: string) {
    iso.Snapshot? && c.token.Jwt? && c.token.sessionId == id && c.view.Some? && LiveIn(c.view.value, id)
  }

  /** The token of a call that may still rotate was stored before the revocation. */
  ghost predicate KnownBefore(c: Call, rows0: seq<RefreshRow>) {
    if c.phase.LoadingSubmitted? then c.view.Some? && c.view.value.refreshes <= rows0
    else HasHash(rows0, Sha256Hex(c.token))
  }

  ghost predicate RotatorsKnown(iso: Isolation, calls: seq<Call>, id: string, rows0: seq<RefreshRow>) {
    forall c | c in calls :: MayRotate(iso, c, id) ==> KnownBefore(c, rows0)
  }

  /** The chain of `id` is what it was in `rows0`, or has one row more. */
  ghost predicate AtMostOneMore(rows0: seq<RefreshRow>, rows: seq<RefreshRow>, id: string) {
    Chain(rows0, id) <= Chain(rows, id) && |Chain(rows, id)| <= |Chain(rows0, id)| + 1
  }

  ghost predicate SinceRevoked(iso: Isolation, rows0: seq<RefreshRow>, s: State, id: string) {
    && StateOk(s) && Revoked(s.db, id) && rows0 <= s.db.refreshes
    && RotatorsKnown(iso, s.calls, id, rows0)
    && AtMostOneMore(rows0, s.db.refreshes, id)
  }

  /** Revoking a session that exists revokes it, and nothing undoes that. */
  lemma RevocationLasts(iso: Isolation, s: State, id: string, actions: seq<Action>)
    requires StateOk(s) && id in s.db.sessions
    ensures Revoked(Exec(iso, Step(iso, s, Revoke(id)), actions).db, id)
  {
    var s1 := Step(iso, s, Revoke(id));
    StepKeeps(iso, s, Revoke(id));
    ExecKeeps(iso, s1, actions);
  }

  lemma KnownAtRevocation(iso: Isolation, s: State, id: string)
    requires StateOk(s) && Revoked(s.db, id)
    ensures SinceRevoked(iso, s.db.refreshes, s, id)
  {
    forall c | c in s.calls && MayRotate(iso, c, id) ensures KnownBefore(c, s.db.refreshes) {
      assert CallOk(s.db, c);
    }
  }

  /** A rotation of the revoked session finds its own token at the tip, so the chain has not
      grown since the revocation. */
  lemma OnlyTheOldTipIsRotated(db: Db, rows0: seq<RefreshRow>, c: Call, id: string)
    requires DbOk(db) && id in db.sessions && rows0 <= db.refreshes
    requires c.phase.Inserting? && CallOk(db, c) && c.phase.row.sessionId == id
    requires HasHash(rows0, Sha256Hex(c.token)) && !HasRotated(db.refreshes, Sha256Hex(c.token))
    requires Chain(rows0, id) <= Chain(db.refreshes, id)
    ensures |Chain(rows0, id)| == |Chain(db.refreshes, id)|
  {
    var x :| x in rows0 && x.refreshHash == Sha256Hex(c.token);
    assert x in db.refreshes;
    StoredTokenNamesItsRow(db, x, c.token);
    ChainMember(rows0, id, x);
    var k: nat :| k < |Chain(rows0, id)| && Chain(rows0, id)[k] == x;
    assert Chain(db.refreshes, id)[k] == x;
    assert IsPath(Chain(db.refreshes, id));
    TipIsLast(db.refreshes, id, k);
  }

  lemma InsertKeepsBound(iso: Isolation, rows0: seq<RefreshRow>, db: Db, c: Call, step: CallStep, id: string)
    requires step.Insert? || step.InsertUnanswered?
    requires DbOk(db) && Revoked(db, id) && rows0 <= db.refreshes && AtMostOneMore(rows0, db.refreshes, id)
    requires CallOk(db, c) && c.phase.Inserting? && (MayRotate(iso, c, id) ==> KnownBefore(c, rows0))
    ensures AtMostOneMore(rows0, Advance(iso, db, c, step).0.refreshes, id)
  {
    hide DbOk, CallOk, Chain, KnownBefore;
    var row := c.phase.row;
    if InsertRefresh(db, row, RefreshHashKey).Inserted? {
      ChainOfAppend(db.refreshes, row, id);
      RowLinksToItsToken(db, c);
      if row.sessionId == id {
        KnownToken(c, rows0);
        OnlyTheOldTipIsRotated(db, rows0, c, id);
      }
    }
  }

  lemma RowLinksToItsToken(db: Db, c: Call)
    requires CallOk(db, c) && c.phase.Inserting?
    ensures c.phase.row.beforeRefreshHash == Some(Sha256Hex(c.token))
  {
  }

  lemma KnownToken(c: Call, rows0: seq<RefreshRow>)
    requires c.phase.Inserting? && KnownBefore(c, rows0)
    ensures HasHash(rows0, Sha256Hex(c.token))
  {
  }

  lemma CallStepKeepsRotator(iso: Isolation, rows0: seq<RefreshRow>, db: Db, c: Call, step: CallStep, id: string)
    requires DbOk(db) && Revoked(db, id) && CallOk(db, c)
    requires MayRotate(iso, c, id) ==> KnownBefore(c, rows0)
    ensures var c' := Advance(iso, db, c, step).1;
      MayRotate(iso, c', id) ==> MayRotate(iso, c, id) && KnownBefore(c', rows0)
  {
    hide PathsOk, UniqueKeys, RowsAgree, NewRowFits, ReplyOk;
  }

  /** Only a successful insert changes the tables, and it only appends a row. */
  lemma OnlyInsertChangesTables(iso: Isolation, db: Db, c: Call, step: CallStep)
    ensures Advance(iso, db, c, step).0.sessions == db.sessions
    ensures db.refreshes <= Advance(iso, db, c, step).0.refreshes
    ensures !(c.phase.Inserting? && (step.Insert? || step.InsertUnanswered?)) ==> Advance(iso, db, c, step).0 == db
  {
  }

  lemma RotatorsKnownUpdate(iso: Isolation, calls: seq<Call>, id: string, rows0: seq<RefreshRow>, i: nat, c: Call)
    requires RotatorsKnown(iso, calls, id, rows0) && i < |calls|
    requires MayRotate(iso, c, id) ==> KnownBefore(c, rows0)
    ensures RotatorsKnown(iso, calls[i := c], id, rows0)
  {
    hide MayRotate, KnownBefore;
  }

  lemma CallStepKeepsBound(iso: Isolation, rows0: seq<RefreshRow>, s: State, i: nat, step: CallStep, id: string)
    requires SinceRevoked(iso, rows0, s, id) && i < |s.calls|
    ensures SinceRevoked(iso, rows0, Step(iso, s, Of(i, step)), id)
  {
    var c := s.calls[i];
    hide DbOk, CallOk, MayRotate, KnownBefore, Advance, AtMostOneMore;
    assert RotatorsKnown(iso, s.calls, id, rows0);
    assert CallOk(s.db, c);
    OnlyInsertChangesTables(iso, s.db, c, step);
    StepKeeps(iso, s, Of(i, step));
    CallStepKeepsRotator(iso, rows0, s.db, c, step, id);
    hide RotatorsKnown, StateOk;
    RotatorsKnownUpdate(iso, s.calls, id, rows0, i, Advance(iso, s.db, c, step).1);
    if c.phase.Inserting? && (step.Insert? || step.InsertUnanswered?) {
      InsertKeepsBound(iso, rows0, s.db, c, step, id);
    }
  }

  /** A sign-in leaves the chains of all known sessions as they are. */
  lemma SignInKeepsOtherChains(db: Db, userId: string, other: string, ip: Option<string>, now: nat, iv: nat, id: string)
    requires DbOk(db) && id in db.sessions
    ensures Chain(SignInCommit(db, userId, other, ip, now, iv).refreshes, id) == Chain(db.refreshes, id)
  {
    if other !in db.sessions {
      SignInIsNeverRefused(db, userId, other, ip, now, iv);
      ChainOfAppend(db.refreshes, RootRow(userId, other, now, iv), id);
    }
  }

  lemma StepKeepsBound(iso: Isolation, rows0: seq<RefreshRow>, s: State, a: Action, id: string)
    requires SinceRevoked(iso, rows0, s, id)
    ensures SinceRevoked(iso, rows0, Step(iso, s, a), id)
  {
    hide Advance, SignInCommit, DbOk, CallOk;
    StepKeeps(iso, s, a);
    match a
    case SignIn(userId, other, ip, now, iv) =>
      SignInKeepsOtherChains(s.db, userId, other, ip, now, iv, id);
    case Of(i, step) => if i < |s.calls| { CallStepKeepsBound(iso, rows0, s, i, step, id); }
    case _ =>
  }

  lemma {:induction false} RunKeepsBound(iso: Isolation, rows0: seq<RefreshRow>, s: State, actions: seq<Action>,
      id: string)
    requires SinceRevoked(iso, rows0, s, id)
    ensures SinceRevoked(iso, rows0, Exec(iso, s, actions), id)
    decreases |actions|
  {
    if actions != [] {
      StepKeepsBound(iso, rows0, s, actions[0], id);
      RunKeepsBound(iso, rows0, Step(iso, s, actions[0]), actions[1..], id);
    }
  }

  /** However many requests were in flight when a session was revoked, and whatever follows,
      its chain keeps its rows and gains at most one. */
  lemma RevokedChainGainsAtMostOneRow(iso: Isolation, s: State, actions: seq<Action>, id: string)
    requires StateOk(s) && Revoked(s.db, id)
    ensures var rows := Exec(iso, s, actions).db.refreshes;
      Chain(s.db.refreshes, id) <= Chain(rows, id) && |Chain(rows, id)| <= |Chain(s.db.refreshes, id)| + 1
  {
    KnownAtRevocation(iso, s, id);
    RunKeepsBound(iso, s.db.refreshes, s, actions, id);
  }

  // ---------------------------------------------------------------- late requests

  /** A call of session `id` that has not passed its session lookup, and whose snapshot, if
      reads use one, does not show the session alive. */
  ghost predicate Barred(iso: Isolation, c: Call, id: string) {
    c.token.Jwt? && c.token.sessionId == id ==>
      match c.phase
      case Done(reply) => reply.Failed?
      case Inserting(_, _, _) => false
      case _ => iso.Snapshot? && c.view.Some? ==> !LiveIn(c.view.value, id)
  }

  lemma BarredLookupFails(iso: Isolation, db: Db, c: Call, step: CallStep, id: string)
    requires DbOk(db) && Revoked(db, id) && CallOk(db, c) && Barred(iso, c, id)
    requires c.phase.LoadingSession? && step.LoadSession? && c.token.Jwt? && c.token.sessionId == id
    ensures Barred(iso, Advance(iso, db, c, step).1, id)
  {
    match c.phase.goal
    case Replay(rotated) => RotatedRowKeepsTheSession(db, rotated, c.token);
    case FirstRotation =>
  }

  lemma AdvanceKeepsBarred(iso: Isolation, db: Db, c: Call, step: CallStep, id: string)
    requires DbOk(db) && Revoked(db, id) && CallOk(db, c) && Barred(iso, c, id)
    ensures Barred(iso, Advance(iso, db, c, step).1, id)
  {
    if c.phase.LoadingSession? && step.LoadSession? && c.token.Jwt? && c.token.sessionId == id {
      BarredLookupFails(iso, db, c, step, id);
    }
  }

  /** A request that arrives after the revocation, or has not passed its session lookup by
      then, never gets a token for the session, in any continuation of the run. */
  lemma {:induction false} NoTokenAfterRevocation(iso: Isolation, s: State, actions: seq<Action>, id: string, i: nat)
    requires StateOk(s) && Revoked(s.db, id)
    requires i < |s.calls| ==> Barred(iso, s.calls[i], id)
    ensures var calls := Exec(iso, s, actions).calls;
      i < |calls| && calls[i].token.Jwt? && calls[i].token.sessionId == id && calls[i].phase.Done? ==>
        calls[i].phase.reply.Failed?
    decreases |actions|
  {
    hide Step, StateOk, Barred;
    if actions != [] {
      StepKeepsBarred(iso, s, actions[0], id, i);
      NoTokenAfterRevocation(iso, Step(iso, s, actions[0]), actions[1..], id, i);
    } else {
      BarredHasNoToken(iso, s, id, i);
    }
  }

  lemma BarredHasNoToken(iso: Isolation, s: State, id: string, i: nat)
    requires i < |s.calls| ==> Barred(iso, s.calls[i], id)
    ensures i < |s.calls| && s.calls[i].token.Jwt? && s.calls[i].token.sessionId == id && s.calls[i].phase.Done? ==>
      s.calls[i].phase.reply.Failed?
  {
  }

  lemma StepKeepsBarred(iso: Isolation, s: State, a: Action, id: string, i: nat)
    requires StateOk(s) && Revoked(s.db, id)
    requires i < |s.calls| ==> Barred(iso, s.calls[i], id)
    ensures StateOk(Step(iso, s, a)) && Revoked(Step(iso, s, a).db, id)
    ensures i < |Step(iso, s, a).calls| ==> Barred(iso, Step(iso, s, a).calls[i], id)
  {
    hide Advance, DbOk, CallOk, SignInCommit, Barred;
    StepKeeps(iso, s, a);
    match a
    case Arrive(token, ip, serverNow) => ArrivalIsBarred(iso, token, ip, serverNow, id);
    case Of(k, step) =>
      if k == i && i < |s.calls| {
        AdvanceKeepsBarred(iso, s.db, s.calls[i], step, id);
      }
    case _ =>
  }

  lemma ArrivalIsBarred(iso: Isolation, token: Token, ip: Option<string>, serverNow: nat, id: string)
    ensures Barred(iso, Admit(token, ip, serverNow), id)
  {
  }
}
