/**
 * `GET /api/me` and `GET /api/me/workspace`: read-only lookups keyed by the token's
 * `userId`. Neither guards the decoded token, so a missing or invalid token escapes
 * as an exception instead of becoming a response.
 */
module Me {
  import opened Wrappers
  import opened Store
  import opened Http
  import AuthUtils

  /** `.from("user").select("*").eq("id", userId).single()`. */
  function UserQuery(s: Store, userId: nat, faults: set<Query>): Result<User, DbError> {
    SingleQuery(UserById, faults, s.users, (u: User) => u.id == userId)
  }

  /** The number of workspaces `userId` owns through the `userId` column, not through memberships. */
  function OwnedCount(s: Store, userId: nat): nat {
    Count(s.workspaces, (w: Workspace) => w.userId == userId)
  }

  /** The `data` of `/api/me` for the caller `userId`: their user row, or `null` when `.single()` fails. */
  function MeData(s: Store, userId: nat, faults: set<Query>): (d: Data)
    ensures d.UserRow? || d.Null?
    ensures d.UserRow? ==>
              && d.user.id == userId && d.user in s.users && UserById !in faults
              && forall i :: 0 <= i < |s.users| && s.users[i].id == userId ==> s.users[i] == d.user
    ensures d.Null? <==> UserById in faults || Count(s.users, (u: User) => u.id == userId) != 1
  {
    match UserQuery(s, userId, faults)
    case Err(_) => Null
    case Ok(user) => UserRow(user)
  }

  /** The `data` of `/api/me/workspace` for the caller `userId`: the workspace they own, or `null`. */
  function WorkspaceData(s: Store, userId: nat, faults: set<Query>): (d: Data)
    ensures d.WorkspaceRow? || d.Null?
    ensures d.WorkspaceRow? ==>
              && d.workspace.userId == userId && d.workspace in s.workspaces && WorkspaceByOwner !in faults
              && forall i :: 0 <= i < |s.workspaces| && s.workspaces[i].userId == userId ==> s.workspaces[i] == d.workspace
    ensures d.Null? <==> WorkspaceByOwner in faults || OwnedCount(s, userId) != 1
  {
    match SingleQuery(WorkspaceByOwner, faults, s.workspaces, (w: Workspace) => w.userId == userId)
    case Err(_) => Null
    case Ok(w) => WorkspaceRow(w)
  }

  /** `GET /api/me`: the caller's whole user row, or `{ data: null }`. */
  function GetMe(authorization: Option<string>, s: Store, env: Env): (r: Outcome)
    ensures r.store == s
    ensures r.Handled? <==> AuthUtils.DecodeAuthToken(authorization, env.jwtSecret, env.now).Verified?
    ensures r.Handled? ==>
              var userId := AuthUtils.DecodeAuthToken(authorization, env.jwtSecret, env.now).claims.payload.userId;
              r.response == Json(MeData(s, userId, env.faults))
  {
    match AuthUtils.DecodeAuthToken(authorization, env.jwtSecret, env.now)
    case NoToken => Unhandled(s)
    case Threw(_) => Unhandled(s)
    case Verified(claims) => Handled(Json(MeData(s, claims.payload.userId, env.faults)), s)
  }

  /** `GET /api/me/workspace`: the one workspace the caller owns, or `{ data: null }`. */
  function GetWorkspace(authorization: Option<string>, s: Store, env: Env): (r: Outcome)
    ensures r.store == s
    ensures r.Handled? <==> AuthUtils.DecodeAuthToken(authorization, env.jwtSecret, env.now).Verified?
    ensures r.Handled? ==>
              var userId := AuthUtils.DecodeAuthToken(authorization, env.jwtSecret, env.now).claims.payload.userId;
              r.response == Json(WorkspaceData(s, userId, env.faults))
  {
    match AuthUtils.DecodeAuthToken(authorization, env.jwtSecret, env.now)
    case NoToken => Unhandled(s)
    case Threw(_) => Unhandled(s)
    case Verified(claims) => Handled(Json(WorkspaceData(s, claims.payload.userId, env.faults)), s)
  }

  /** With unique ids, `/api/me` returns the caller's whole row, password hash included. */
  lemma MeReturnsCallerRow(s: Store, userId: nat, faults: set<Query>, i: nat)
    requires WellFormed(s) && UserById !in faults
    requires i < |s.users| && s.users[i].id == userId
    ensures MeData(s, userId, faults) == UserRow(s.users[i])
  {
    CountOne(s.users, (u: User) => u.id == userId, i);
  }

  /** A caller who owns exactly one workspace gets that workspace. */
  lemma OwnedReturned(s: Store, userId: nat, faults: set<Query>, k: nat)
    requires WorkspaceByOwner !in faults
    requires k < |s.workspaces| && s.workspaces[k].userId == userId
    requires forall i :: 0 <= i < |s.workspaces| && s.workspaces[i].userId == userId ==> i == k
    ensures WorkspaceData(s, userId, faults) == WorkspaceRow(s.workspaces[k])
  {
    CountOne(s.workspaces, (w: Workspace) => w.userId == userId, k);
  }

  /** A caller who owns two workspaces has no home workspace: `.single()` fails and the data is `null`. */
  lemma SeveralOwnedIsNull(s: Store, userId: nat, faults: set<Query>, i: nat, j: nat)
    requires i < j < |s.workspaces|
    requires s.workspaces[i].userId == userId && s.workspaces[j].userId == userId
    ensures WorkspaceData(s, userId, faults) == Null
  {
    CountTwo(s.workspaces, (w: Workspace) => w.userId == userId, i, j);
  }

  /** A caller who owns no workspace, whatever their memberships, gets `null`. */
  lemma NoneOwnedIsNull(s: Store, userId: nat, faults: set<Query>)
    requires forall i :: 0 <= i < |s.workspaces| ==> s.workspaces[i].userId != userId
    ensures WorkspaceData(s, userId, faults) == Null
  {
    CountZero(s.workspaces, (w: Workspace) => w.userId == userId);
  }
}
