/** The request environment and the JSON responses the route handlers produce. */
module Http {
  import opened Wrappers
  import opened Time
  import opened Store

  /**
   * What a handler sees besides the request: the `JWT_SECRET` setting, the clock, and
   * which of its database queries fail.
   */
  datatype Env = Env(jwtSecret: Option<string>, now: Instant, faults: set<Query>)

  /** The columns the profile update reads back; the password hash is not among them. */
  datatype Profile = Profile(
    id: nat,
    name: Option<string>,
    email: string,
    lastLoginAt: Option<Instant>,
    createdAt: Instant,
    updatedAt: Instant)

  function ProfileOf(u: User): Profile {
    Profile(u.id, u.name, u.email, u.lastLoginAt, u.createdAt, u.updatedAt)
  }

  /** The value under the `data` key of a successful response. */
  datatype Data =
    | Null
    | AccessToken(token: string)
    | UserRow(user: User)
    | ProfileRow(profile: Profile)
    | WorkspaceRow(workspace: Workspace)
    | ProductRows(products: seq<Product>)
    | ProductRow(product: Product)

  /** Error bodies name their text `error` in most routes and `message` in the profile route. */
  datatype BodyKey = ErrorKey | MessageKey

  datatype Body = DataBody(data: Data) | ErrorBody(key: BodyKey, text: string)

  datatype Response = Response(status: nat, body: Body)

  /**
   * The end of a request: a response together with the store it leaves behind, or an
   * exception that escapes the handler.
   */
  datatype Outcome = Handled(response: Response, store: Store) | Unhandled(store: Store)

  /** `NextResponse.json({ data })`, whose status defaults to 200. */
  function Json(data: Data): Response {
    Response(200, DataBody(data))
  }

  function Fail(status: nat, key: BodyKey, text: string): Response {
    Response(status, ErrorBody(key, text))
  }
}
