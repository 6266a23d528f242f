/** `POST /api/auth/login`: checks an email and password and issues a session token. */
module Login {
  import opened Wrappers
  import opened Time
  import opened Store
  import opened Http
  import Jwt
  import Password
  import AuthUtils

  /** The validated request body. */
  datatype Credentials = Credentials(email: string, password: string)

  /** The one message of both rejections, so a caller cannot tell which check failed. */
  const InvalidCredentials: string := "이메일 또는 비밀번호가 올바르지 않습니다."

  const LoginFailed: string := "로그인 처리 중 오류가 발생했습니다."

  /** The user row `.eq("email", email).limit(1)` returns: the first row with that email. */
  function Lookup(s: Store, email: string): (r: Option<User>)
    ensures r.None? <==> forall i :: 0 <= i < |s.users| ==> s.users[i].email != email
    ensures r.Some? ==> exists i :: 0 <= i < |s.users| && s.users[i] == r.value && r.value.email == email
                                    && forall j :: 0 <= j < i ==> s.users[j].email != email
  {
    FirstWhere(s.users, (u: User) => u.email == email)
  }

  /** The store after `lastLoginAt` of every row with id `id` is set to `now`. */
  function Stamp(s: Store, id: nat, now: Instant): (t: Store)
    ensures OnlyUsersDiffer(s, t) && |t.users| == |s.users|
    ensures forall i :: 0 <= i < |s.users| ==>
              t.users[i] == if s.users[i].id == id then s.users[i].(lastLoginAt := Some(now)) else s.users[i]
  {
    s.(users := UpdateWhere(s.users, (u: User) => u.id == id, (u: User) => u.(lastLoginAt := Some(now))))
  }

  /** The user whose credentials the request proves, if the lookup succeeds and the password matches. */
  function Authenticate(c: Credentials, s: Store, faults: set<Query>): (r: Option<User>)
    ensures r.Some? <==> UserByEmail !in faults && Lookup(s, c.email).Some?
                         && Password.Compare(c.password, Lookup(s, c.email).value.passwordHash)
    ensures r.Some? ==> r == Lookup(s, c.email)
  {
    var found := if UserByEmail in faults then None else Lookup(s, c.email);
    if found.Some? && Password.Compare(c.password, found.value.passwordHash) then found else None
  }

  /**
   * The handler. `body` is `None` when the JSON or the schema check fails, which throws
   * into the catch-all 500.
   */
  function Post(body: Option<Credentials>, s: Store, env: Env): (r: Outcome)
    ensures r.Handled? && r.response.status in {200, 401, 500}
    ensures r.response.status == 500 <==> body.None?
    ensures r.response.status == 401 <==>
              body.Some? && (UserByEmail in env.faults || Lookup(s, body.value.email).None?
                             || !Password.Compare(body.value.password, Lookup(s, body.value.email).value.passwordHash))
    ensures r.response.status == 401 ==> r.response.body == ErrorBody(ErrorKey, InvalidCredentials)
    ensures r.response.status == 500 ==> r.response.body == ErrorBody(ErrorKey, LoginFailed)
    ensures r.response.status != 200 ==> r.store == s
    ensures r.response.status == 200 ==>
              var u := Lookup(s, body.value.email).value;
              && r.response.body.DataBody? && r.response.body.data.AccessToken?
              && AuthUtils.IssuedFor(r.response.body.data.token, Jwt.Payload(u.id, u.email), env.jwtSecret, env.now)
              && OnlyUsersDiffer(s, r.store) && |r.store.users| == |s.users|
              && (forall i :: 0 <= i < |s.users| ==>
                    r.store.users[i] == if s.users[i].id == u.id && LastLoginUpdate !in env.faults
                                        then s.users[i].(lastLoginAt := Some(env.now))
                                        else s.users[i])
  {
    match body
    case None => Handled(Fail(500, ErrorKey, LoginFailed), s)
    case Some(Credentials(email, password)) =>
      match Authenticate(Credentials(email, password), s, env.faults)
      case None => Handled(Fail(401, ErrorKey, InvalidCredentials), s)
      case Some(user) =>
        // The update's result is not inspected: a failed update leaves the row alone.
        var s' := if LastLoginUpdate in env.faults then s else Stamp(s, user.id, env.now);
        var token := AuthUtils.CreateAuthToken(Jwt.Payload(user.id, user.email), env.jwtSecret, env.now);
        Handled(Json(AccessToken(token)), s')
  }

  /**
   * Only the first row with the submitted email is tried: when it is at index `i`, the
   * password is compared with that row's hash and no other.
   */
  lemma FirstMatchDecides(c: Credentials, s: Store, env: Env, i: nat)
    requires i < |s.users| && s.users[i].email == c.email
    requires forall j :: 0 <= j < i ==> s.users[j].email != c.email
    ensures Post(Some(c), s, env).response.status
            == if UserByEmail !in env.faults && Password.Compare(c.password, s.users[i].passwordHash) then 200 else 401
  {
    var u := Lookup(s, c.email).value;
    var k :| 0 <= k < |s.users| && s.users[k] == u && u.email == c.email
             && forall j :: 0 <= j < k ==> s.users[j].email != c.email;
    assert k == i;
  }

  /** Login changes no id and no email, so both store invariants survive it. */
  lemma PostPreservesInvariants(body: Option<Credentials>, s: Store, env: Env)
    requires WellFormed(s)
    ensures WellFormed(Post(body, s, env).store)
    ensures UniqueEmails(s) ==> UniqueEmails(Post(body, s, env).store)
  {
    var t := Post(body, s, env).store;
    RewriteUsersPreserves(s, t);
  }
}
