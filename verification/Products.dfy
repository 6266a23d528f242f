/**
 * `GET` and `POST /api/products`: listing a workspace's products without any
 * authentication, and creating a product after checking, in this order, the request
 * body, the caller's token, that the caller's user row exists, and that the caller
 * has exactly one membership row in the target workspace.
 */
module Products {
  import opened Wrappers
  import opened Store
  import opened Http
  import AuthUtils

  /** The validated body of a creation request. */
  datatype ProductInput = ProductInput(
    workspaceId: nat,
    name: string,
    price: int,
    imageUrl: Option<string>,
    status: string)

  const ListFailed: string := "제품 목록을 불러오는데 실패했습니다."

  const CreateFailed: string := "제품 생성에 실패했습니다."

  const Unauthenticated: string := "인증되지 않은 사용자입니다."

  const UserNotFound: string := "사용자를 찾을 수 없습니다."

  const NoAccess: string := "이 워크스페이스에 접근 권한이 없습니다."

  /** The products of workspace `workspaceId`, in table order. */
  function InWorkspace(s: Store, workspaceId: nat): (r: seq<Product>)
    ensures forall k :: 0 <= k < |r| ==> r[k] in s.products && r[k].workspaceId == workspaceId
    ensures forall i :: 0 <= i < |s.products| && s.products[i].workspaceId == workspaceId ==> s.products[i] in r
    ensures forall x :: multiset(r)[x] == if x.workspaceId == workspaceId then multiset(s.products)[x] else 0
  {
    WhereMultiset(s.products, (p: Product) => p.workspaceId == workspaceId);
    Where(s.products, (p: Product) => p.workspaceId == workspaceId)
  }

  /**
   * `GET /api/products?workspaceId=…`. `workspaceId` is `None` when the query
   * parameter fails the schema. No token is read.
   */
  function Get(workspaceId: Option<nat>, s: Store, env: Env): (r: Outcome)
    ensures r.Handled? && r.store == s
    ensures r.response.status in {200, 500}
    ensures r.response.status == 200 <==> workspaceId.Some? && ProductsByWorkspace !in env.faults
    ensures r.response.status == 500 ==> r.response.body == ErrorBody(ErrorKey, ListFailed)
    ensures r.response.status == 200 ==>
              && r.response.body.DataBody? && r.response.body.data.ProductRows?
              && var rows := r.response.body.data.products;
              && (forall k :: 0 <= k < |rows| ==> rows[k] in s.products && rows[k].workspaceId == workspaceId.value)
              && (forall i :: 0 <= i < |s.products| && s.products[i].workspaceId == workspaceId.value
                    ==> s.products[i] in rows)
              && (forall x :: multiset(rows)[x] == if x.workspaceId == workspaceId.value then multiset(s.products)[x] else 0)
  {
    match workspaceId
    case None => Handled(Fail(500, ErrorKey, ListFailed), s)
    case Some(w) =>
      if ProductsByWorkspace in env.faults then Handled(Fail(500, ErrorKey, ListFailed), s)
      else Handled(Json(ProductRows(InWorkspace(s, w))), s)
  }

  /** `.from("user").select("id").eq("id", userId).single()` yields a row. */
  function UserExists(s: Store, userId: nat, faults: set<Query>): bool {
    SingleQuery(UserById, faults, s.users, (u: User) => u.id == userId).Ok?
  }

  /** The number of `workspace_user` rows for this workspace and user. */
  function MembershipRows(s: Store, workspaceId: nat, userId: nat): nat {
    Count(s.memberships, (m: Membership) => m.workspaceId == workspaceId && m.userId == userId)
  }

  /** `.from("workspace_user")…eq("workspaceId", …).eq("userId", …).single()` yields a row. */
  function HasAccess(s: Store, workspaceId: nat, userId: nat, faults: set<Query>): (ok: bool)
    ensures ok <==> MembershipLookup !in faults && MembershipRows(s, workspaceId, userId) == 1
  {
    SingleQuery(MembershipLookup, faults, s.memberships,
                (m: Membership) => m.workspaceId == workspaceId && m.userId == userId).Ok?
  }

  /** The inserted row: the input's fields, owned by the caller. */
  function NewProduct(s: Store, input: ProductInput, userId: nat): Product {
    Product(s.nextProductId, input.name, input.price, input.imageUrl, input.status, input.workspaceId, userId)
  }

  /**
   * The part of `POST /api/products` after the token has yielded `userId`: the user
   * row must exist, the caller must have exactly one membership row in the target
   * workspace, and the insert must succeed.
   */
  function Create(userId: nat, input: ProductInput, s: Store, faults: set<Query>): (r: Outcome)
    ensures r.Handled? && r.response.status in {200, 403, 500}
    ensures r.response.status == 403 <==> !UserExists(s, userId, faults) || !HasAccess(s, input.workspaceId, userId, faults)
    ensures r.response.status == 403 ==>
              if UserExists(s, userId, faults) then r.response.body == ErrorBody(ErrorKey, NoAccess)
              else r.response.body == ErrorBody(ErrorKey, UserNotFound)
    ensures r.response.status == 500 ==> ProductInsert in faults && r.response.body == ErrorBody(ErrorKey, CreateFailed)
    ensures r.response.status != 200 ==> r.store == s
    ensures r.response.status == 200 ==>
              && UserExists(s, userId, faults)
              && MembershipRows(s, input.workspaceId, userId) == 1
              && ProductInsert !in faults
              && r.store == s.(products := s.products + [NewProduct(s, input, userId)],
                               nextProductId := s.nextProductId + 1)
              && r.response.body == DataBody(ProductRow(NewProduct(s, input, userId)))
  {
    if !UserExists(s, userId, faults) then Handled(Fail(403, ErrorKey, UserNotFound), s)
    else if !HasAccess(s, input.workspaceId, userId, faults) then Handled(Fail(403, ErrorKey, NoAccess), s)
    else if ProductInsert in faults then Handled(Fail(500, ErrorKey, CreateFailed), s)
    else
      var product := NewProduct(s, input, userId);
      Handled(Json(ProductRow(product)),
              s.(products := s.products + [product], nextProductId := s.nextProductId + 1))
  }

  /**
   * `POST /api/products`. `body` is `None` when the JSON or the schema check fails;
   * that happens before the token is read.
   */
  function Post(authorization: Option<string>, body: Option<ProductInput>, s: Store, env: Env): (r: Outcome)
    ensures r.Handled? && r.response.status in {200, 401, 403, 500}
    ensures body.None? ==> r.response == Fail(500, ErrorKey, CreateFailed)
    ensures r.response.status == 401 <==>
              body.Some? && !AuthUtils.DecodeAuthToken(authorization, env.jwtSecret, env.now).Verified?
    ensures r.response.status == 401 ==> r.response.body == ErrorBody(ErrorKey, Unauthenticated)
    ensures r.response.status != 200 ==> r.store == s
    ensures body.Some? && AuthUtils.DecodeAuthToken(authorization, env.jwtSecret, env.now).Verified? ==>
              r == Create(AuthUtils.DecodeAuthToken(authorization, env.jwtSecret, env.now).claims.payload.userId,
                          body.value, s, env.faults)
    ensures r.response.status == 200 ==>
              && body.Some?
              && var d := AuthUtils.DecodeAuthToken(authorization, env.jwtSecret, env.now);
              && d.Verified? && env.now < d.claims.exp
              && var userId := d.claims.payload.userId;
              && UserExists(s, userId, env.faults)
              && MembershipRows(s, body.value.workspaceId, userId) == 1
              && ProductInsert !in env.faults
              && r.store == s.(products := s.products + [NewProduct(s, body.value, userId)],
                               nextProductId := s.nextProductId + 1)
  {
    match body
    case None => Handled(Fail(500, ErrorKey, CreateFailed), s)
    case Some(input) =>
      // Reading `.userId` of a `null` result throws too, so both failure kinds land here.
      match AuthUtils.DecodeAuthToken(authorization, env.jwtSecret, env.now)
      case NoToken => Handled(Fail(401, ErrorKey, Unauthenticated), s)
      case Threw(_) => Handled(Fail(401, ErrorKey, Unauthenticated), s)
      case Verified(claims) => Create(claims.payload.userId, input, s, env.faults)
  }

  /**
   * A created product refers to an existing user and to a workspace the user is a
   * member of, so product creation keeps the store well formed.
   */
  lemma PostPreservesWellFormed(authorization: Option<string>, body: Option<ProductInput>, s: Store, env: Env)
    requires WellFormed(s)
    ensures WellFormed(Post(authorization, body, s, env).store)
  {
    var r := Post(authorization, body, s, env);
    if r.response.status == 200 {
      var userId := AuthUtils.DecodeAuthToken(authorization, env.jwtSecret, env.now).claims.payload.userId;
      var w := body.value.workspaceId;
      CountZero(s.users, (u: User) => u.id == userId);
      CountZero(s.memberships, (m: Membership) => m.workspaceId == w && m.userId == userId);
      InsertProductPreserves(s, NewProduct(s, body.value, userId));
    }
  }

  /** Two membership rows for the same workspace and user make `.single()` fail: creation is refused. */
  lemma DuplicateMembershipForbidden(userId: nat, input: ProductInput, s: Store, faults: set<Query>, i: nat, j: nat)
    requires i < j < |s.memberships|
    requires s.memberships[i].workspaceId == input.workspaceId && s.memberships[i].userId == userId
    requires s.memberships[j].workspaceId == input.workspaceId && s.memberships[j].userId == userId
    ensures Create(userId, input, s, faults).response.status == 403
  {
    CountTwo(s.memberships, (m: Membership) => m.workspaceId == input.workspaceId && m.userId == userId, i, j);
  }

  /** A caller without a membership row in the workspace is refused, whether or not the workspace exists. */
  lemma NonMemberForbidden(userId: nat, input: ProductInput, s: Store, faults: set<Query>)
    requires forall i :: 0 <= i < |s.memberships| ==>
               s.memberships[i].workspaceId != input.workspaceId || s.memberships[i].userId != userId
    ensures Create(userId, input, s, faults).response.status == 403
  {
    CountZero(s.memberships, (m: Membership) => m.workspaceId == input.workspaceId && m.userId == userId);
  }

  /** The membership row's role is never read: changing it changes no response. */
  lemma AnyRoleSuffices(
    authorization: Option<string>, body: Option<ProductInput>, s: Store, env: Env, k: nat, role: string)
    requires k < |s.memberships|
    ensures var s' := s.(memberships := s.memberships[k := s.memberships[k].(role := role)]);
            Post(authorization, body, s', env).response == Post(authorization, body, s, env).response
  {
    var s' := s.(memberships := s.memberships[k := s.memberships[k].(role := role)]);
    forall w: nat, userId: nat
      ensures MembershipRows(s', w, userId) == MembershipRows(s, w, userId)
    {
      CountAgree(s'.memberships, s.memberships, (m: Membership) => m.workspaceId == w && m.userId == userId);
    }
  }
}
