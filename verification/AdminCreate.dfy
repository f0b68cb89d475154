/**
 Creating a user checks that the login id is free and inserts the user later, after other
 waits. Through the queue the check and the insert cannot be separated by another creation.
 */
module AdminCreate {
  import opened Optional
  import opened QueueCode
  import opened QueueRuns

  datatype User = User(
    userId: string,
    name: string,
    nickname: string,
    authId: string,
    stateId: string,
    positionId: Json)

  type Users = map<string, User>   // by login id, its unique key

  const JOB_KEY := "user-service-admin-create"

  const PASSWORDS_DIFFER := Http(400, MessageBody("passwords differ"))
  const LOGIN_TAKEN := Http(400, MessageBody("login id in use"))
  const DUPLICATE_LOGIN := Http(400, MessageBody("duplicate login id"))

  function Field(j: Json, name: string): Json {
    if j.JObj? then Lookup(j.fields, name) else JNull
  }

  function Lookup(fields: seq<(string, Json)>, name: string): Json {
    if fields == [] then JNull
    else if fields[0].0 == name then fields[0].1
    else Lookup(fields[1..], name)
  }

  function Text(j: Json): string {
    if j.JStr? then j.s else ""
  }

  /** The request, as the first value of the environment. */
  function Dto(env: Env, name: string): string {
    if env == [] then "" else Text(Field(env[0], name))
  }

  function FindByLogin(users: Users, env: Env): Answer<Users> {
    Answered(users, JBool(Dto(env, "login_id") in users))
  }

  /** The new user; the random user id comes with the request. A missing position is null. */
  function NewUser(env: Env): User {
    var position := if env == [] then JNull else Field(env[0], "position_id");
    User(Dto(env, "user_id"), Dto(env, "name"), Dto(env, "nickname"), Dto(env, "auth_id"), "ACTIVE", position)
  }

  /** The insert statement: the unique key on the login id is checked at once with it. */
  function InsertUser(users: Users, env: Env): Answer<Users> {
    var login := Dto(env, "login_id");
    if login in users then Refused(DUPLICATE_LOGIN) else Answered(users[login := NewUser(env)], JNull)
  }

  predicate PasswordsDiffer(env: Env) {
    Dto(env, "login_pw") != Dto(env, "login_pw2")
  }

  predicate WasFound(env: Env) {
    env != [] && env[|env| - 1] == JBool(true)
  }

  function InsertPart(): Code<Users> {
    Statement(InsertUser, Return(_ => JNull))
  }

  function TakenPart(): Code<Users> {
    Branch(WasFound, Throw(_ => LOGIN_TAKEN), InsertPart())
  }

  /** Passwords compared, login id looked up, then the insert. */
  function AdminCreateCode(): Code<Users> {
    Branch(PasswordsDiffer, Throw(_ => PASSWORDS_DIFFER), Statement(FindByLogin, TakenPart()))
  }

  /** The outcome of a creation executed alone, and the users after it: refused with the first
      of two messages if the passwords differ, with the other if they agree and the login id is
      taken, and else done, with exactly that user added, active. */
  ghost predicate CreatesAlone(users: Users, dto: Json, after: Users, outcome: Outcome) {
    var login := Dto([dto], "login_id");
    if Dto([dto], "login_pw") != Dto([dto], "login_pw2") then
      after == users && outcome == Raised(Http(400, JObj([("message", JStr("passwords differ"))])))
    else if login in users then
      after == users && outcome == Raised(Http(400, JObj([("message", JStr("login id in use"))])))
    else
      && outcome == Value(JNull)
      && after == users[login := User(Dto([dto], "user_id"), Dto([dto], "name"), Dto([dto], "nickname"),
                                      Dto([dto], "auth_id"), "ACTIVE", Field(dto, "position_id"))]
  }

  /** So it never meets the unique key. */
  lemma CreateAlone(users: Users, dto: Json)
    ensures var (after, outcome) := Run(AdminCreateCode(), users, [dto]);
      CreatesAlone(users, dto, after, outcome) && outcome != Raised(DUPLICATE_LOGIN)
  {
    var login := Dto([dto], "login_id");
    var found := JBool(login in users);
    var env := [dto] + [found];
    assert forall name :: Dto(env, name) == Dto([dto], name);
    assert NewUser(env) == NewUser([dto]);
    DistinctMessages();
    var stored := users[login := NewUser([dto])];
    assert login !in users ==> Run(InsertPart(), users, env) == (stored, Value(JNull));
    assert Run(TakenPart(), users, env) ==
      if login in users then (users, Raised(LOGIN_TAKEN)) else (stored, Value(JNull));
    assert Run(Statement(FindByLogin, TakenPart()), users, [dto]) == Run(TakenPart(), users, env);
  }

  lemma DistinctMessages()
    ensures LOGIN_TAKEN != DUPLICATE_LOGIN && PASSWORDS_DIFFER != DUPLICATE_LOGIN
  {
    assert "login id in use"[0] != "duplicate login id"[0];
    assert "passwords differ"[0] != "duplicate login id"[0];
    assert LOGIN_TAKEN.response.fields[0].1.s == "login id in use";
    assert PASSWORDS_DIFFER.response.fields[0].1.s == "passwords differ";
    assert DUPLICATE_LOGIN.response.fields[0].1.s == "duplicate login id";
  }

  /** In every run of the queue, with any other jobs on the same store, the caller of a queued
      creation gets the answer of the creation executed alone after all earlier jobs; so none
      is answered with the unique key's error. */
  lemma QueuedCreationNeverMeetsTheKey(impl: string -> Code<Users>, users: Users, actions: seq<Action<Users>>, k: nat)
    requires impl(JOB_KEY) == AdminCreateCode() && OneFunctionPerKey(impl, actions)
    requires k < |Exec(Initial(users), actions).results| && k < |Exec(Initial(users), actions).enqueued|
    requires Exec(Initial(users), actions).enqueued[k].key == JOB_KEY
    ensures var s := Exec(Initial(users), actions);
      var before, after := Serial(impl, users, s.enqueued[..k]).0, Serial(impl, users, s.enqueued[..k + 1]).0;
      CreatesAlone(before, s.enqueued[k].args, after, CallerOutcome(s.results[k]))
    ensures CallerOutcome(Exec(Initial(users), actions).results[k]) != Raised(DUPLICATE_LOGIN)
  {
    hide Exec, Run, AdminCreateCode, OneFunctionPerKey, CreatesAlone;
    var jobs := Exec(Initial(users), actions).enqueued;
    CallersSeeDirectOutcomes(impl, users, actions, k);
    SerialStep(impl, users, jobs, k);
    SerialPrefix(impl, users, jobs[..k], k);
    var before := Serial(impl, users, jobs[..k]).0;
    CreateAlone(before, jobs[k].args);
    var (after, outcome) := Run(AdminCreateCode(), before, [jobs[k].args]);
    CreationRaisesHttp(before, jobs[k].args, after, outcome);
  }

  lemma CreationRaisesHttp(users: Users, dto: Json, after: Users, outcome: Outcome)
    requires CreatesAlone(users, dto, after, outcome)
    ensures outcome.Raised? ==> outcome.e.Http?
  {
  }

  /** A method that calls the creation and catches what it raises: the caller goes on exactly
      when the user was created, and its catch block sees the response of the refusal. */
  function CatchingCode(): Code<Users> {
    Code.Call(JOB_KEY, Request, AdminCreateCode(), Return(_ => JStr("created")), Some(Return(LastValue)))
  }

  function Request(env: Env): Json {
    if env == [] then JNull else env[0]
  }

  function LastValue(env: Env): Json {
    if env == [] then JNull else env[|env| - 1]
  }

  /** A nested call with a catch block, executed directly. */
  lemma CaughtCreation(users: Users, dto: Json)
    ensures var (after, outcome) := Run(CatchingCode(), users, [dto]);
      var (created, own) := Run(AdminCreateCode(), users, [dto]);
      && after == created
      && (own.Value? ==> outcome == Value(JStr("created")))
      && (own.Raised? ==> own.e.Http? && outcome == Value(JObj([("response", own.e.response)])))
  {
    hide AdminCreateCode, CreatesAlone;
    CreateAlone(users, dto);
    var (created, own) := Run(AdminCreateCode(), users, [dto]);
    CreationRaisesHttp(users, dto, created, own);
    assert Request([dto]) == dto;
  }

  // ---------------------------------------------------------------- without the queue

  /** Two creations run directly, their statements interleaved as listed. */
  function Interleave(first: Task<Users>, second: Task<Users>, users: Users, turns: seq<bool>)
    : (Task<Users>, Task<Users>, Users)
    decreases |turns|
  {
    if turns == [] then (first, second, users)
    else if turns[0] then
      var (task, users') := TaskStep(false, first, users);
      Interleave(task, second, users', turns[1..])
    else
      var (task, users') := TaskStep(false, second, users);
      Interleave(first, task, users', turns[1..])
  }

  function Start(dto: Json): Task<Users> {
    Running(false, AdminCreateCode(), [dto], [])
  }

  const DTO := JObj([("login_id", JStr("login1")), ("login_pw", JStr("x")), ("login_pw2", JStr("x"))])

  /** Three steps bring a creation with a free login id to its insert. */
  lemma UpToTheInsert(users: Users)
    requires "login1" !in users
    ensures var t1 := TaskStep(false, Start(DTO), users).0;
      var t2 := TaskStep(false, t1, users).0;
      var t3 := TaskStep(false, t2, users).0;
      && t3 == Running(false, InsertPart(), [DTO] + [JBool(false)], [])
      && TaskStep(false, Start(DTO), users).1 == users
      && TaskStep(false, t1, users).1 == users
      && TaskStep(false, t2, users).1 == users
  {
    DtoFields();
  }

  lemma DtoFields()
    ensures Dto([DTO], "login_id") == "login1" && Dto([DTO], "login_pw") == "x" && Dto([DTO], "login_pw2") == "x"
  {
    var fields := DTO.fields;
    assert fields[1..][0].0 == "login_pw" && fields[1..][1..][0].0 == "login_pw2";
    assert "login_pw" != "login_id" && "login_pw2" != "login_id" && "login_pw" != "login_pw2" by {
      assert |"login_pw"| == |"login_id"| && "login_pw"[6] != "login_id"[6];
    }
    assert Lookup(fields, "login_pw2") == Lookup(fields[1..], "login_pw2") == Lookup(fields[1..][1..], "login_pw2");
  }

  /** Three turns of the same task in a row. */
  lemma ThreeTurns(first: Task<Users>, second: Task<Users>, users: Users, turn: bool, rest: seq<bool>)
    ensures var t0 := if turn then first else second;
      var (t1, u1) := TaskStep(false, t0, users);
      var (t2, u2) := TaskStep(false, t1, u1);
      var (t3, u3) := TaskStep(false, t2, u2);
      Interleave(first, second, users, [turn, turn, turn] + rest) ==
      Interleave(if turn then t3 else first, if turn then second else t3, u3, rest)
  {
    hide TaskStep;
    var turns := [turn, turn, turn] + rest;
    assert turns[1..] == [turn, turn] + rest && ([turn, turn] + rest)[1..] == [turn] + rest;
    assert ([turn] + rest)[1..] == rest;
    var (t1, u1) := TaskStep(false, if turn then first else second, users);
    assert Interleave(first, second, users, turns) ==
      Interleave(if turn then t1 else first, if turn then second else t1, u1, [turn, turn] + rest);
  }

  /** Both creations look the login id up before either inserts. */
  const BOTH_CHECK_FIRST := [true, true, true] + ([false, false, false] + [true, false])

  /** Without the queue two creations with one free login id can both pass the check, and the
      second insert then meets the unique key. */
  lemma DirectCreationsCanMeetTheKey(users: Users)
    requires "login1" !in users
    ensures Interleave(Start(DTO), Start(DTO), users, BOTH_CHECK_FIRST).1 == Finished(Raised(DUPLICATE_LOGIN))
  {
    var checked := Running(false, InsertPart(), [DTO] + [JBool(false)], []);
    var last := [true, false];
    assert Interleave(Start(DTO), Start(DTO), users, BOTH_CHECK_FIRST) == Interleave(checked, checked, users, last) by {
      hide TaskStep, Interleave;
      UpToTheInsert(users);
      ThreeTurns(Start(DTO), Start(DTO), users, true, [false, false, false] + [true, false]);
      ThreeTurns(checked, Start(DTO), users, false, [true, false]);
    }
    DtoFields();
    assert forall name :: Dto([DTO] + [JBool(false)], name) == Dto([DTO], name);
    assert [true, false][1..] == [false] && [false][1..] == [];
    var (done, stored) := TaskStep(false, checked, users);
    assert "login1" in stored;
    assert Interleave(checked, checked, users, [true, false]) == Interleave(done, checked, stored, [false]);
  }
}
