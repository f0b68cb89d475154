/** Concrete runs that show each restriction of the recovery results is needed. */
module RefreshWitnesses {
  import opened Optional
  import opened Tokens
  import opened UserTables
  import opened RefreshProtocol

  const ROOT := Sign("refresh", "u", "s", 0, REFRESH_TTL)

  /** Two requests with one token, both past every check, about to sign in seconds
      `first` and `second`. */
  function RaceUpToSigning(): seq<Action> {
    [SignIn("u", "s", None, 0, 0), Arrive(ROOT, None, 1), Arrive(ROOT, None, 1),
     Of(0, FindExisting), Of(1, FindExisting), Of(0, LoadSubmitted(1)), Of(1, LoadSubmitted(1))]
  }

  function Race(first: nat, second: nat, report: UniqueKey): seq<Action> {
    [Of(0, LoadSession(first, first, 1)), Of(1, LoadSession(second, second, 2)),
     Of(0, Insert(report)), Of(1, Insert(report)), Of(1, FindWinner)]
  }

  const ROOT_ROW := RowFor(ROOT, "s", None, 0)
  const SESSION := SessionRow("s", "u", None, false)
  const SIGNED_IN := Db(map["s" := SESSION], [ROOT_ROW])

  /** The state of a call that has looked for a rotation, and found none. */
  const LOOKED := Call(ROOT, None, Some(SIGNED_IN), LoadingSubmitted(FirstRotation))

  lemma BothArrive(iso: Isolation)
    ensures var arrived := Call(ROOT, None, None, LookingForRotated);
      var signedIn := Step(iso, INITIAL, SignIn("u", "s", None, 0, 0));
      Step(iso, Step(iso, signedIn, Arrive(ROOT, None, 1)), Arrive(ROOT, None, 1))
      == State(SIGNED_IN, [arrived, arrived])
  {
    assert Step(iso, INITIAL, SignIn("u", "s", None, 0, 0)).db == SIGNED_IN;
  }

  lemma BothLook(iso: Isolation)
    ensures var arrived := Call(ROOT, None, None, LookingForRotated);
      Step(iso, Step(iso, State(SIGNED_IN, [arrived, arrived]), Of(0, FindExisting)), Of(1, FindExisting))
      == State(SIGNED_IN, [LOOKED, LOOKED])
  {
    var arrived := Call(ROOT, None, None, LookingForRotated);
    assert Step(iso, State(SIGNED_IN, [arrived, arrived]), Of(0, FindExisting)) == State(SIGNED_IN, [LOOKED, arrived]);
  }

  lemma BothLoad(iso: Isolation)
    ensures Step(iso, Step(iso, State(SIGNED_IN, [LOOKED, LOOKED]), Of(0, LoadSubmitted(1))), Of(1, LoadSubmitted(1)))
      == State(SIGNED_IN, [WAITING, WAITING])
  {
    assert FindSubmitted([ROOT_ROW], Sha256Hex(ROOT), 1) == Some(ROOT_ROW);
    assert Step(iso, State(SIGNED_IN, [LOOKED, LOOKED]), Of(0, LoadSubmitted(1)))
        == State(SIGNED_IN, [WAITING, LOOKED]);
  }

  lemma SigningState(iso: Isolation)
    ensures Exec(iso, INITIAL, RaceUpToSigning()) == State(SIGNED_IN, [WAITING, WAITING])
  {
    hide Step;
    var a := RaceUpToSigning();
    BothArrive(iso);
    BothLook(iso);
    BothLoad(iso);
    assert a == [a[0], a[1], a[2], a[3], a[4]] + [a[5], a[6]];
    ExecAppend(iso, INITIAL, [a[0], a[1], a[2], a[3], a[4]], [a[5], a[6]]);
    ExecFive(iso, INITIAL, a[0], a[1], a[2], a[3], a[4]);
    var s := State(SIGNED_IN, [LOOKED, LOOKED]);
    assert [a[5], a[6]][1..] == [a[6]] && [a[6]][1..] == [];
    assert Exec(iso, s, [a[5], a[6]]) == Exec(iso, Step(iso, s, a[5]), [a[6]]) == Step(iso, Step(iso, s, a[5]), a[6]);
  }

  /** The signed-in state just before both racers load the session. */
  const WAITING := Call(ROOT, None, Some(SIGNED_IN), LoadingSession(FirstRotation))

  /** What the two racers are about to insert after signing in second `now`. */
  function Signed(now: nat, iv: nat): Call {
    WAITING.(phase := AfterSession(WAITING, FirstRotation, SESSION, now, now, iv))
  }

  lemma ExecFive(iso: Isolation, s: State, a: Action, b: Action, c: Action, d: Action, e: Action)
    ensures Exec(iso, s, [a, b, c, d, e]) == Step(iso, Step(iso, Step(iso, Step(iso, Step(iso, s, a), b), c), d), e)
  {
    var acts := [a, b, c, d, e];
    assert acts[1..] == [b, c, d, e] && [b, c, d, e][1..] == [c, d, e] && [c, d, e][1..] == [d, e];
    assert [d, e][1..] == [e] && [e][1..] == [];
    var s1 := Step(iso, s, a);
    var s2 := Step(iso, s1, b);
    var s3 := Step(iso, s2, c);
    assert Exec(iso, s, acts) == Exec(iso, s1, [b, c, d, e]) == Exec(iso, s2, [c, d, e]);
    assert Exec(iso, s2, [c, d, e]) == Exec(iso, s3, [d, e]) == Exec(iso, Step(iso, s3, d), [e]);
  }

  lemma RacersSign(iso: Isolation, first: nat, second: nat)
    ensures Step(iso, Step(iso, State(SIGNED_IN, [WAITING, WAITING]), Of(0, LoadSession(first, first, 1))),
                 Of(1, LoadSession(second, second, 2)))
         == State(SIGNED_IN, [Signed(first, 1), Signed(second, 2)])
  {
    var s1 := Step(iso, State(SIGNED_IN, [WAITING, WAITING]), Of(0, LoadSession(first, first, 1)));
    assert s1 == State(SIGNED_IN, [Signed(first, 1), WAITING]);
  }

  lemma RaceState(iso: Isolation, first: nat, second: nat, report: UniqueKey)
    ensures var s := Step(iso, State(SIGNED_IN, [Signed(first, 1), Signed(second, 2)]), Of(0, Insert(report)));
      Exec(iso, INITIAL, RaceUpToSigning() + Race(first, second, report)) ==
      Step(iso, Step(iso, s, Of(1, Insert(report))), Of(1, FindWinner))
  {
    SigningState(iso);
    ExecAppend(iso, INITIAL, RaceUpToSigning(), Race(first, second, report));
    var r := Race(first, second, report);
    ExecFive(iso, State(SIGNED_IN, [WAITING, WAITING]), r[0], r[1], r[2], r[3], r[4]);
    assert r == [r[0], r[1], r[2], r[3], r[4]];
    RacersSign(iso, first, second);
  }

  /** Under snapshots the loser of an ordinary race answers with the conflict error, although
      its token is unexpired, its session is live and the winner has committed. */
  lemma SnapshotLoserGetsConflict()
    ensures var s := Exec(Snapshot, INITIAL, RaceUpToSigning() + Race(10, 20, BeforeRefreshHashKey));
      && |s.calls| == 2 && s.calls[0].phase.Done? && s.calls[0].phase.reply.Ok?
      && s.calls[1].phase == Done(Failed(AlreadyRotated))
  {
    RaceState(Snapshot, 10, 20, BeforeRefreshHashKey);
    assert !HasHash([ROOT_ROW], Signed(10, 1).phase.row.refreshHash);
    assert !HasRotated([ROOT_ROW], Sha256Hex(ROOT));
    assert Signed(10, 1).phase.row in [ROOT_ROW] + [Signed(10, 1).phase.row];
  }

  /** Even under committed reads, a loser that signs in the winner's second answers with the
      duplicate-token error when the server reports the digest key. */
  lemma SameSecondLoserGetsDuplicate()
    ensures var s := Exec(ReadCommitted, INITIAL, RaceUpToSigning() + Race(10, 10, RefreshHashKey));
      && |s.calls| == 2 && s.calls[0].phase.Done? && s.calls[0].phase.reply.Ok?
      && s.calls[1].phase == Done(Failed(DuplicateToken))
  {
    RaceState(ReadCommitted, 10, 10, RefreshHashKey);
    assert !HasHash([ROOT_ROW], Signed(10, 1).phase.row.refreshHash);
    assert !HasRotated([ROOT_ROW], Sha256Hex(ROOT));
    assert Signed(10, 1).phase.row in [ROOT_ROW] + [Signed(10, 1).phase.row];
  }

  /** A client that refreshes in the second it signed in, before anything else happens. */
  function RefreshAtOnce(report: UniqueKey): seq<Action> {
    [SignIn("u", "s", None, 0, 0), Arrive(ROOT, None, 0), Of(0, FindExisting), Of(0, LoadSubmitted(0)),
     Of(0, LoadSession(0, 0, 1)), Of(0, Insert(report))]
  }

  lemma RefreshAtOnceSigns(iso: Isolation)
    ensures var s1 := Step(iso, Step(iso, INITIAL, SignIn("u", "s", None, 0, 0)), Arrive(ROOT, None, 0));
      var s2 := Step(iso, Step(iso, s1, Of(0, FindExisting)), Of(0, LoadSubmitted(0)));
      Step(iso, s2, Of(0, LoadSession(0, 0, 1))) == State(SIGNED_IN, [Signed(0, 1)])
  {
    var s0 := Step(iso, INITIAL, SignIn("u", "s", None, 0, 0));
    assert s0.db == SIGNED_IN;
    var s1 := Step(iso, s0, Arrive(ROOT, None, 0));
    assert s1 == State(SIGNED_IN, [Call(ROOT, None, None, LookingForRotated)]);
    assert Step(iso, s1, Of(0, FindExisting)) == State(SIGNED_IN, [LOOKED]);
    assert FindSubmitted([ROOT_ROW], Sha256Hex(ROOT), 0) == Some(ROOT_ROW);
    assert Step(iso, State(SIGNED_IN, [LOOKED]), Of(0, LoadSubmitted(0))) == State(SIGNED_IN, [WAITING]);
  }

  /** It always answers with the duplicate-token error, under either isolation level and
      whichever key would be reported, with no other request in the system. */
  lemma RefreshAtOnceGetsDuplicate(iso: Isolation, report: UniqueKey)
    ensures var s := Exec(iso, INITIAL, RefreshAtOnce(report));
      |s.calls| == 1 && s.calls[0].phase == Done(Failed(DuplicateToken)) && s.db == SIGNED_IN
  {
    hide Step;
    var a := RefreshAtOnce(report);
    RefreshAtOnceSigns(iso);
    assert a == [a[0], a[1], a[2], a[3], a[4]] + [a[5]];
    ExecAppend(iso, INITIAL, [a[0], a[1], a[2], a[3], a[4]], [a[5]]);
    ExecFive(iso, INITIAL, a[0], a[1], a[2], a[3], a[4]);
    SignedAgainIsDuplicate(iso, report);
    assert [a[5]][1..] == [];
  }

  lemma SignedAgainIsDuplicate(iso: Isolation, report: UniqueKey)
    ensures Step(iso, State(SIGNED_IN, [Signed(0, 1)]), Of(0, Insert(report))) ==
      State(SIGNED_IN, [Signed(0, 1).(phase := Done(Failed(DuplicateToken)))])
  {
    assert ROOT_ROW in [ROOT_ROW];
    assert HasHash([ROOT_ROW], Signed(0, 1).phase.row.refreshHash);
    assert !HasRotated([ROOT_ROW], Sha256Hex(ROOT));
  }
}
