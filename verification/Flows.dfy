/**
 * Properties of request sequences: what one handler's result means for the next
 * request made with the same store and the token it issued.
 */
module Flows {
  import opened Wrappers
  import opened Time
  import opened Store
  import opened Http
  import Jwt
  import AuthUtils
  import Login
  import Register
  import Products
  import Me

  /** The session token a 201 registration returns. */
  function IssuedToken(r: Outcome): string
    requires r.Handled? && r.response.body.DataBody? && r.response.body.data.AccessToken?
  {
    r.response.body.data.token
  }

  /** A user registered with a fresh email can log in with the same email and password. */
  lemma RegisterThenLogin(reg: Register.Registration, s: Store, env: Env, env2: Env)
    requires forall i :: 0 <= i < |s.users| ==> s.users[i].email != reg.email
    requires UserInsert !in env.faults && UserByEmail !in env2.faults
    ensures Register.Post(Some(reg), s, env).response.status == 201
    ensures Login.Post(Some(Login.Credentials(reg.email, reg.password)),
                       Register.Post(Some(reg), s, env).store, env2).response.status == 200
  {
    var t := Register.Post(Some(reg), s, env).store;
    assert forall j :: 0 <= j < |s.users| ==> t.users[j] == s.users[j];
    Login.FirstMatchDecides(Login.Credentials(reg.email, reg.password), t, env2, |s.users|);
  }

  /**
   * Registration writes no membership row, so within the token's lifetime the new user
   * cannot create a product in any workspace, not even the home workspace just created.
   */
  lemma NewUserCannotCreateProducts(
    reg: Register.Registration, s: Store, env: Env, input: Products.ProductInput, env2: Env)
    requires WellFormed(s)
    requires forall i :: 0 <= i < |s.users| ==> s.users[i].email != reg.email
    requires UserInsert !in env.faults
    requires env2.jwtSecret == env.jwtSecret && env2.now < env.now + SecondsPerDay
    ensures var r := Register.Post(Some(reg), s, env);
            Products.Post(Some("Bearer " + IssuedToken(r)), Some(input), r.store, env2).response.status == 403
  {
    var r := Register.Post(Some(reg), s, env);
    var p := Jwt.Payload(s.nextUserId, reg.email);
    AuthUtils.DecodeIssued(IssuedToken(r), p, env.jwtSecret, env.now, env2.now);
    Products.NonMemberForbidden(s.nextUserId, input, r.store, env2.faults);
  }

  /**
   * When the workspace insert succeeds, the new user's `/api/me/workspace` within the
   * token's lifetime is the workspace named after them.
   */
  lemma HomeWorkspaceAfterRegister(reg: Register.Registration, s: Store, env: Env, env2: Env)
    requires WellFormed(s)
    requires forall i :: 0 <= i < |s.users| ==> s.users[i].email != reg.email
    requires UserInsert !in env.faults
    requires WorkspaceInsert !in env.faults && WorkspaceByOwner !in env2.faults
    requires env2.jwtSecret == env.jwtSecret && env2.now < env.now + SecondsPerDay
    ensures var r := Register.Post(Some(reg), s, env);
            Me.GetWorkspace(Some("Bearer " + IssuedToken(r)), r.store, env2)
            == Handled(Json(WorkspaceRow(Workspace(s.nextWorkspaceId, reg.name + Register.WorkspaceSuffix,
                                                   s.nextUserId, env.now, env.now))), r.store)
  {
    var r := Register.Post(Some(reg), s, env);
    var t := r.store;
    AuthUtils.DecodeIssued(IssuedToken(r), Jwt.Payload(s.nextUserId, reg.email), env.jwtSecret, env.now, env2.now);
    assert forall i :: 0 <= i < |s.workspaces| ==> t.workspaces[i] == s.workspaces[i];
    Me.OwnedReturned(t, s.nextUserId, env2.faults, |s.workspaces|);
  }

  /**
   * When the workspace insert fails, registration still succeeds and the new user has
   * no home workspace: `/api/me/workspace` answers `null`.
   */
  lemma UserWithoutWorkspace(reg: Register.Registration, s: Store, env: Env, env2: Env)
    requires WellFormed(s)
    requires forall i :: 0 <= i < |s.users| ==> s.users[i].email != reg.email
    requires UserInsert !in env.faults
    requires WorkspaceInsert in env.faults
    requires env2.jwtSecret == env.jwtSecret && env2.now < env.now + SecondsPerDay
    ensures Register.Post(Some(reg), s, env).response.status == 201
    ensures var r := Register.Post(Some(reg), s, env);
            Me.GetWorkspace(Some("Bearer " + IssuedToken(r)), r.store, env2) == Handled(Json(Null), r.store)
  {
    var r := Register.Post(Some(reg), s, env);
    AuthUtils.DecodeIssued(IssuedToken(r), Jwt.Payload(s.nextUserId, reg.email), env.jwtSecret, env.now, env2.now);
    Me.NoneOwnedIsNull(r.store, s.nextUserId, env2.faults);
  }
}
