/**
 * `POST /api/auth/register`: creates a user, then tries to create the user's home
 * workspace, then issues a session token. The workspace step may fail without
 * affecting the response, and no membership row is written.
 */
module Register {
  import opened Wrappers
  import opened Time
  import opened Store
  import opened Http
  import Jwt
  import Password
  import AuthUtils

  /** The validated request body. */
  datatype Registration = Registration(email: string, password: string, name: string)

  const EmailTaken: string := "이미 사용 중인 이메일입니다."

  const RegisterFailed: string := "회원가입 처리 중 오류가 발생했습니다."

  /** The suffix of the home workspace's name. */
  const WorkspaceSuffix: string := "'s Workspace"

  /**
   * Whether the duplicate check `.eq("email", email).limit(1)` sees a row. A failing
   * check yields no data, which the handler reads as "no duplicate".
   */
  function EmailInUse(s: Store, email: string, faults: set<Query>): (taken: bool)
    ensures taken <==> UserByEmail !in faults && exists i :: 0 <= i < |s.users| && s.users[i].email == email
  {
    UserByEmail !in faults && FirstWhere(s.users, (u: User) => u.email == email).Some?
  }

  /** The inserted user row: email and password hash only; the submitted name is not stored. */
  function NewUser(s: Store, reg: Registration, now: Instant): User {
    User(s.nextUserId, reg.email, Password.Hash(reg.password), None, None, now, now)
  }

  /** The home workspace row for the new user. */
  function HomeWorkspace(s: Store, reg: Registration, owner: nat, now: Instant): Workspace {
    Workspace(s.nextWorkspaceId, reg.name + WorkspaceSuffix, owner, now, now)
  }

  /**
   * The handler. `body` is `None` when the JSON or the schema check fails.
   */
  function Post(body: Option<Registration>, s: Store, env: Env): (r: Outcome)
    ensures r.Handled? && r.response.status in {201, 400, 500}
    ensures r.response.status == 400 <==> body.Some? && EmailInUse(s, body.value.email, env.faults)
    ensures r.response.status == 400 ==> r.response.body == ErrorBody(ErrorKey, EmailTaken)
    ensures r.response.status == 500 <==> body.None? || (!EmailInUse(s, body.value.email, env.faults) && UserInsert in env.faults)
    ensures r.response.status == 500 ==> r.response.body == ErrorBody(ErrorKey, RegisterFailed)
    ensures r.response.status != 201 ==> r.store == s
    ensures r.response.status == 201 ==>
              var reg := body.value;
              && |r.store.users| == |s.users| + 1
              && var u := r.store.users[|s.users|];
              && r.store.users == s.users + [u]
              && u.id == s.nextUserId && u.email == reg.email && u.name.None?
              && u.lastLoginAt.None? && u.createdAt == env.now && u.updatedAt == env.now
              && Password.Compare(reg.password, u.passwordHash)
              && r.store.nextUserId == s.nextUserId + 1
              && r.store.memberships == s.memberships && r.store.products == s.products
              && (if WorkspaceInsert in env.faults
                  then r.store.workspaces == s.workspaces && r.store.nextWorkspaceId == s.nextWorkspaceId
                  else r.store.workspaces == s.workspaces + [Workspace(s.nextWorkspaceId, reg.name + WorkspaceSuffix, u.id, env.now, env.now)]
                       && r.store.nextWorkspaceId == s.nextWorkspaceId + 1)
              && r.store.nextProductId == s.nextProductId
              && r.response.body.DataBody? && r.response.body.data.AccessToken?
              && AuthUtils.IssuedFor(r.response.body.data.token, Jwt.Payload(u.id, reg.email), env.jwtSecret, env.now)
  {
    match body
    case None => Handled(Fail(500, ErrorKey, RegisterFailed), s)
    case Some(reg) =>
      if EmailInUse(s, reg.email, env.faults) then Handled(Fail(400, ErrorKey, EmailTaken), s)
      else if UserInsert in env.faults then Handled(Fail(500, ErrorKey, RegisterFailed), s)
      else
        var user := NewUser(s, reg, env.now);
        var s1 := s.(users := s.users + [user], nextUserId := s.nextUserId + 1);
        // A failed workspace insert is logged and otherwise ignored.
        var s2 :=
          if WorkspaceInsert in env.faults then s1
          else s1.(workspaces := s1.workspaces + [HomeWorkspace(s, reg, user.id, env.now)],
                   nextWorkspaceId := s1.nextWorkspaceId + 1);
        var token := AuthUtils.CreateAuthToken(Jwt.Payload(user.id, user.email), env.jwtSecret, env.now);
        Handled(Response(201, DataBody(AccessToken(token))), s2)
  }

  /** Registration hands out fresh ids and points the workspace at the new user, so the store stays well formed. */
  lemma PostPreservesWellFormed(body: Option<Registration>, s: Store, env: Env)
    requires WellFormed(s)
    ensures WellFormed(Post(body, s, env).store)
  {
    var r := Post(body, s, env);
    if r.response.status == 201 {
      var u := r.store.users[|s.users|];
      var s1 := s.(users := s.users + [u], nextUserId := s.nextUserId + 1);
      InsertUserPreserves(s, u);
      if WorkspaceInsert in env.faults {
        assert r.store == s1;
      } else {
        var w := HomeWorkspace(s, body.value, u.id, env.now);
        InsertWorkspacePreserves(s1, w);
        assert r.store == s1.(workspaces := s1.workspaces + [w], nextWorkspaceId := s1.nextWorkspaceId + 1);
      }
    }
  }

  /** With a working duplicate check, registration never gives two users the same email. */
  lemma PostKeepsEmailsUnique(body: Option<Registration>, s: Store, env: Env)
    requires UniqueEmails(s) && UserByEmail !in env.faults
    ensures UniqueEmails(Post(body, s, env).store)
  {
    var r := Post(body, s, env);
    if r.response.status == 201 {
      var t := r.store;
      assert forall i :: 0 <= i < |s.users| ==> t.users[i] == s.users[i];
      assert forall i :: 0 <= i < |s.users| ==> s.users[i].email != body.value.email;
    }
  }

  /**
   * As written, a failing duplicate check reads as "no duplicate": an email that is
   * already registered is registered a second time.
   */
  lemma FailedCheckAdmitsDuplicate(reg: Registration, s: Store, env: Env, i: nat)
    requires i < |s.users| && s.users[i].email == reg.email
    requires UserByEmail in env.faults && UserInsert !in env.faults
    ensures Post(Some(reg), s, env).response.status == 201
    ensures !UniqueEmails(Post(Some(reg), s, env).store)
  {
    var t := Post(Some(reg), s, env).store;
    assert t.users[i] == s.users[i] && t.users[|s.users|].email == reg.email;
  }
}
