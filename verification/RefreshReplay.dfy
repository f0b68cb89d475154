/**
 The chain as a client meets it: expiry along it under a signing clock that never runs
 backwards, the row that follows a token, and the rotation of its tip.
 */
module RefreshReplay {
  import opened Optional
  import opened Tokens
  import opened UserTables
  import opened RefreshProtocol
  import opened RefreshInvariant
  import opened RefreshTheorems
  import opened RefreshOutcomes

  /** The clock readings and random values one uncontended call meets. */
  datatype Moment = Moment(server: nat, db: int, access: nat, refresh: nat, iv: nat, report: UniqueKey)

  /** One refresh call with no other statement in between. */
  function Solo(iso: Isolation, db: Db, token: Token, ip: Option<string>, m: Moment): (Db, Call) {
    var c0 := Admit(token, ip, m.server);
    var (db1, c1) := Advance(iso, db, c0, FindExisting);
    var (db2, c2) := Advance(iso, db1, c1, LoadSubmitted(m.db));
    var (db3, c3) := Advance(iso, db2, c2, LoadSession(m.access, m.refresh, m.iv));
    Advance(iso, db3, c3, Insert(m.report))
  }

  function StoredToken(r: RefreshRow): Token {
    DecryptAesGcm(r.refreshEncrypted)
  }

  ghost predicate ExpiryNeverDecreases(chain: seq<RefreshRow>) {
    forall j, k | 0 <= j <= k < |chain| :: chain[j].endAt <= chain[k].endAt
  }

  // ---------------------------------------------------------------- a monotone signing clock

  function SigningSecond(a: Action): Option<nat> {
    match a
    case SignIn(_, _, _, refreshNow, _) => Some(refreshNow)
    case Of(_, LoadSession(_, refreshNow, _)) => Some(refreshNow)
    case _ => None
  }

  /** The servers' signing clock, first read at `since` or later, never runs backwards. */
  ghost predicate SigningMonotone(actions: seq<Action>, since: nat)
    decreases |actions|
  {
    actions == [] ||
    match SigningSecond(actions[0])
    case None => SigningMonotone(actions[1..], since)
    case Some(now) => since <= now && SigningMonotone(actions[1..], now)
  }

  /** The row's token was signed by `until`, and no earlier than the token it came from. */
  ghost predicate RowInOrder(r: RefreshRow, until: nat) {
    && StoredToken(r).Jwt? && StoredToken(r).iat <= until
    && (r.beforeRefreshHash.Some? ==>
          r.beforeRefreshHash.value.preimage.Jwt? && r.beforeRefreshHash.value.preimage.iat <= StoredToken(r).iat)
  }

  ghost predicate InOrder(s: State, until: nat) {
    && (forall r | r in s.db.refreshes :: RowInOrder(r, until))
    && forall c | c in s.calls && c.phase.Inserting? :: RowInOrder(c.phase.row, until)
  }

  lemma StoredTokenInOrder(db: Db, token: Token, until: nat)
    requires RowsAgree(db) && HasHash(db.refreshes, Sha256Hex(token))
    requires forall r | r in db.refreshes :: RowInOrder(r, until)
    ensures token.Jwt? && token.iat <= until
  {
    var r :| r in db.refreshes && r.refreshHash == Sha256Hex(token);
    assert RowAgrees(db, r) && RowInOrder(r, until);
  }

  lemma AdvanceInOrder(iso: Isolation, db: Db, c: Call, step: CallStep, since: nat, until: nat)
    requires DbOk(db) && CallOk(db, c) && since <= until
    requires forall r | r in db.refreshes :: RowInOrder(r, since)
    requires c.phase.Inserting? ==> RowInOrder(c.phase.row, since)
    requires step.LoadSession? ==> step.refreshNow == until
    ensures var (db', c') := Advance(iso, db, c, step);
      && (forall r | r in db'.refreshes :: RowInOrder(r, until))
      && (c'.phase.Inserting? ==> RowInOrder(c'.phase.row, until))
  {
    forall r | r in db.refreshes ensures RowInOrder(r, until) {
      assert RowInOrder(r, since);
    }
    hide DbOk, UniqueKeys, PathsOk, FindRotated, FindSubmitted;
    if c.phase == LoadingSession(FirstRotation) && step.LoadSession? {
      StoredTokenInOrder(db, c.token, since);
    }
  }

  lemma StepInOrder(iso: Isolation, s: State, a: Action, since: nat, until: nat)
    requires StateOk(s) && InOrder(s, since) && since <= until
    requires SigningSecond(a).Some? ==> SigningSecond(a).value == until
    ensures InOrder(Step(iso, s, a), until)
  {
    var s' := Step(iso, s, a);
    forall r | r in s.db.refreshes ensures RowInOrder(r, until) {
      assert RowInOrder(r, since);
    }
    forall c | c in s.calls && c.phase.Inserting? ensures RowInOrder(c.phase.row, until) {
      assert RowInOrder(c.phase.row, since);
    }
    if a.Of? && a.call < |s.calls| {
      AdvanceInOrder(iso, s.db, s.calls[a.call], a.step, since, until);
    }
  }

  lemma {:induction false} RunInOrder(iso: Isolation, s: State, actions: seq<Action>, since: nat) returns (until: nat)
    requires StateOk(s) && InOrder(s, since) && SigningMonotone(actions, since)
    ensures InOrder(Exec(iso, s, actions), until)
    decreases |actions|
  {
    if actions == [] {
      until := since;
    } else {
      var now := if SigningSecond(actions[0]).Some? then SigningSecond(actions[0]).value else since;
      StepInOrder(iso, s, actions[0], since, now);
      StepKeeps(iso, s, actions[0]);
      until := RunInOrder(iso, Step(iso, s, actions[0]), actions[1..], now);
    }
  }

  lemma {:induction false} ChainInOrder(db: Db, id: string, until: nat, j: nat, k: nat)
    requires DbOk(db) && id in db.sessions
    requires forall r | r in db.refreshes :: RowInOrder(r, until)
    requires j <= k < |Chain(db.refreshes, id)|
    ensures Chain(db.refreshes, id)[j].endAt <= Chain(db.refreshes, id)[k].endAt
    decreases k
  {
    if j < k {
      var chain := Chain(db.refreshes, id);
      ChainInOrder(db, id, until, j, k - 1);
      assert IsPath(chain);
      ChainMember(db.refreshes, id, chain[k]);
      ChainMember(db.refreshes, id, chain[k - 1]);
      assert RowAgrees(db, chain[k]) && RowAgrees(db, chain[k - 1]) && RowInOrder(chain[k], until);
      assert chain[k].beforeRefreshHash == Some(chain[k - 1].refreshHash);
    }
  }

  /** With a signing clock that never runs backwards, expiry never decreases along a chain. */
  lemma MonotoneClockOrdersExpiry(iso: Isolation, actions: seq<Action>, id: string)
    requires SigningMonotone(actions, 0) && id in Exec(iso, INITIAL, actions).db.sessions
    ensures ExpiryNeverDecreases(Chain(Exec(iso, INITIAL, actions).db.refreshes, id))
  {
    var until := RunInOrder(iso, INITIAL, actions, 0);
    ReachableOk(iso, actions);
    var db := Exec(iso, INITIAL, actions).db;
    var chain := Chain(db.refreshes, id);
    forall j: nat, k: nat | j <= k < |chain| ensures chain[j].endAt <= chain[k].endAt {
      ChainInOrder(db, id, until, j, k);
    }
  }

  // ---------------------------------------------------------------- walking the chain

  /** A live session whose stored ids are not blank, seen from an accepted address. */
  ghost predicate Usable(db: Db, id: string, ip: Option<string>) {
    && DbOk(db) && id in db.sessions && !db.sessions[id].isDelete && AddressMatches(db.sessions[id], ip)
    && id != "" && db.sessions[id].userId != ""
  }

  /** The token at position `p` of a session's chain is a verifiable refresh token of it. */
  lemma ChainToken(db: Db, id: string, p: nat)
    requires RowsAgree(db) && id in db.sessions && p < |Chain(db.refreshes, id)|
    ensures var r := Chain(db.refreshes, id)[p];
      && r in db.refreshes && r.sessionId == id && r.refreshHash == Sha256Hex(StoredToken(r))
      && Names(StoredToken(r), "refresh", db.sessions[id].userId, id, r.endAt)
  {
    ChainMember(db.refreshes, id, Chain(db.refreshes, id)[p]);
    assert RowAgrees(db, Chain(db.refreshes, id)[p]);
  }

  lemma ChainIndexIsUnique(rows: seq<RefreshRow>, id: string, a: nat, b: nat)
    requires UniqueKeys(rows) && a < |Chain(rows, id)| && b < |Chain(rows, id)|
    requires Chain(rows, id)[a].refreshHash == Chain(rows, id)[b].refreshHash
    ensures a == b
  {
    if a != b {
      var i, j := ChainOrder(rows, id, if a < b then a else b, if a < b then b else a);
      HashFindsOneIndex(rows, i, j);
    }
  }

  /** The row rotated from a chain's token is the next row of the chain, or there is none. */
  lemma RotatedIsNext(db: Db, id: string, p: nat)
    requires DbOk(db) && id in db.sessions && p < |Chain(db.refreshes, id)|
    ensures var chain := Chain(db.refreshes, id);
      FindRotated(db.refreshes, chain[p].refreshHash) == if p + 1 < |chain| then Some(chain[p + 1]) else None
  {
    var chain := Chain(db.refreshes, id);
    var found := FindRotated(db.refreshes, chain[p].refreshHash);
    ChainToken(db, id, p);
    assert IsPath(chain);
    if found.Some? {
      var r := found.value;
      RotatedRowKeepsTheSession(db, r, StoredToken(chain[p]));
      ChainMember(db.refreshes, id, r);
      var k: nat :| k < |chain| && chain[k] == r;
      OnlyTheHeadIsLinkless(chain, k);
      ChainIndexIsUnique(db.refreshes, id, k - 1, p);
    } else if p + 1 < |chain| {
      ChainMember(db.refreshes, id, chain[p + 1]);
      assert false;
    }
  }

  lemma OnlyTheHeadIsLinkless(path: seq<RefreshRow>, k: nat)
    requires IsPath(path) && k < |path| && path[k].beforeRefreshHash.Some?
    ensures k > 0 && path[k].beforeRefreshHash == Some(path[k - 1].refreshHash)
  {
  }

  /** The first two reads of an uncontended call with an unexpired stored token. */
  lemma SoloValidates(iso: Isolation, db: Db, id: string, p: nat, ip: Option<string>, m: Moment)
    requires Usable(db, id, ip) && p < |Chain(db.refreshes, id)|
    requires m.server < Chain(db.refreshes, id)[p].endAt && m.db < Chain(db.refreshes, id)[p].endAt
    ensures var chain := Chain(db.refreshes, id);
      var token := StoredToken(chain[p]);
      var goal := if p + 1 < |chain| then Replay(chain[p + 1]) else FirstRotation;
      var waiting := Call(token, ip, Some(db), LoadingSession(goal));
      Solo(iso, db, token, ip, m) ==
        var (db3, c3) := Advance(iso, db, waiting, LoadSession(m.access, m.refresh, m.iv));
        Advance(iso, db3, c3, Insert(m.report))
  {
    var chain := Chain(db.refreshes, id);
    var token := StoredToken(chain[p]);
    ChainToken(db, id, p);
    RotatedIsNext(db, id, p);
    assert FindSubmitted(db.refreshes, Sha256Hex(token), m.db).Some?;
  }

  /** An uncontended call with the tip's token answers with a newly signed token of the same
      session, and the chain is longer by exactly its row. */
  ghost predicate RotatesTip(iso: Isolation, db: Db, id: string, ip: Option<string>, m: Moment)
    requires id in db.sessions && |Chain(db.refreshes, id)| > 0
  {
    var chain := Chain(db.refreshes, id);
    var tip := chain[|chain| - 1];
    var signed := Sign("refresh", db.sessions[id].userId, id, m.refresh, REFRESH_TTL);
    var (db', c) := Solo(iso, db, StoredToken(tip), ip, m);
    && c.phase.Done? && c.phase.reply.Ok? && c.phase.reply.refresh == signed
    && Chain(db'.refreshes, id) == chain + [RowFor(signed, id, Some(tip.refreshHash), m.iv)]
  }

  /** At the tip a call rotates, unless a token of the session was signed in its second. */
  lemma TipRotates(iso: Isolation, db: Db, id: string, ip: Option<string>, m: Moment)
    requires Usable(db, id, ip) && |Chain(db.refreshes, id)| > 0
    requires var tip := Chain(db.refreshes, id)[|Chain(db.refreshes, id)| - 1];
      m.server < tip.endAt && m.db < tip.endAt
    requires !SignedInSecond(db, id, m.refresh)
    ensures RotatesTip(iso, db, id, ip, m)
  {
    hide Solo, PathsOk, UniqueKeys, SignedInSecond;
    var chain := Chain(db.refreshes, id);
    var p := |chain| - 1;
    SoloValidates(iso, db, id, p, ip, m);
    ChainToken(db, id, p);
    RotatedIsNext(db, id, p);
    var signed := Sign("refresh", db.sessions[id].userId, id, m.refresh, REFRESH_TTL);
    var row := RowFor(signed, id, Some(chain[p].refreshHash), m.iv);
    FreshSecondIsNewDigest(db, id, m.refresh, row);
    ChainOfAppend(db.refreshes, row, id);
  }

  lemma FreshSecondIsNewDigest(db: Db, id: string, now: nat, row: RefreshRow)
    requires RowsAgree(db) && id in db.sessions && !SignedInSecond(db, id, now)
    requires row.refreshHash == Sha256Hex(Sign("refresh", db.sessions[id].userId, id, now, REFRESH_TTL))
    ensures !HasHash(db.refreshes, row.refreshHash)
  {
    forall r | r in db.refreshes ensures r.refreshHash != row.refreshHash {
      assert RowAgrees(db, r);
    }
  }
}
