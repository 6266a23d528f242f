/**
 * `POST /api/profile/update`: changes the caller's name and email after checking that
 * no other user has the new email. Every error body here uses the key `message`.
 */
module ProfileUpdate {
  import opened Wrappers
  import opened Store
  import opened Http
  import AuthUtils

  /** The validated request body. */
  datatype ProfileInput = ProfileInput(name: string, email: string)

  const CheckFailed: string := "이메일 확인 중 오류가 발생했습니다"

  const EmailTaken: string := "이미 사용 중인 이메일입니다"

  const UpdateFailed: string := "프로필 업데이트에 실패했습니다"

  const RequestFailed: string := "요청 처리 중 오류가 발생했습니다"

  /** The number of users other than `userId` that have `email`. */
  function Others(s: Store, email: string, userId: nat): nat {
    Count(s.users, (u: User) => u.email == email && u.id != userId)
  }

  /**
   * The conflict check `.eq("email", email).neq("id", userId).single()`: a row when
   * exactly one other user has the email, `PGRST116` for none or several, and any
   * other error when the query fails.
   */
  function ConflictCheck(s: Store, email: string, userId: nat, faults: set<Query>): (r: Result<User, DbError>)
    ensures r.Ok? <==> EmailConflictCheck !in faults && Others(s, email, userId) == 1
    ensures r.Err? ==> (r.error == Unavailable <==> EmailConflictCheck in faults)
  {
    SingleQuery(EmailConflictCheck, faults, s.users, (u: User) => u.email == email && u.id != userId)
  }

  /** Rows with id `userId`; the update must touch exactly one to succeed. */
  function Targets(s: Store, userId: nat): seq<User> {
    Where(s.users, (u: User) => u.id == userId)
  }

  /** The store after the caller's row gets the new name and email. */
  function Apply(s: Store, userId: nat, input: ProfileInput): (t: Store)
    ensures OnlyUsersDiffer(s, t) && |t.users| == |s.users|
    ensures forall i :: 0 <= i < |s.users| ==>
              t.users[i] == if s.users[i].id == userId
                            then s.users[i].(name := Some(input.name), email := input.email)
                            else s.users[i]
  {
    s.(users := UpdateWhere(s.users, (u: User) => u.id == userId,
                            (u: User) => u.(name := Some(input.name), email := input.email)))
  }

  /**
   * The part of the handler after the token has yielded `userId` and the body has
   * passed the schema: the conflict check, then the update of the caller's row.
   */
  function Update(userId: nat, input: ProfileInput, s: Store, faults: set<Query>): (r: Outcome)
    ensures r.Handled? && r.response.status in {200, 400, 500}
    ensures r.response.body.ErrorBody? ==> r.response.body.key == MessageKey
    ensures r.response.status == 400 <==> ConflictCheck(s, input.email, userId, faults).Ok?
    ensures r.response.status == 400 ==> r.response.body == ErrorBody(MessageKey, EmailTaken)
    ensures r.response.status == 500 ==>
              r.response.body == ErrorBody(MessageKey, if EmailConflictCheck in faults then CheckFailed else UpdateFailed)
    ensures r.response.status != 200 ==> r.store == s
    ensures EmailConflictCheck !in faults && ProfileWrite !in faults
            && Others(s, input.email, userId) != 1 && |Targets(s, userId)| == 1
            ==> r.response.status == 200
    ensures r.response.status == 200 ==>
              && EmailConflictCheck !in faults && ProfileWrite !in faults
              && Others(s, input.email, userId) != 1
              && |Targets(s, userId)| == 1
              && r.store == Apply(s, userId, input)
              && r.response.body == DataBody(ProfileRow(ProfileOf(Targets(s, userId)[0].(name := Some(input.name), email := input.email))))
  {
    match ConflictCheck(s, input.email, userId, faults)
    case Err(Unavailable) => Handled(Fail(500, MessageKey, CheckFailed), s)
    case Ok(_) => Handled(Fail(400, MessageKey, EmailTaken), s)
    case Err(NotExactlyOne) =>
      // PGRST116 means "not exactly one other user": treated as no conflict.
      var targets := Targets(s, userId);
      if ProfileWrite in faults || |targets| != 1 then Handled(Fail(500, MessageKey, UpdateFailed), s)
      else
        var updated := targets[0].(name := Some(input.name), email := input.email);
        Handled(Json(ProfileRow(ProfileOf(updated))), Apply(s, userId, input))
  }

  /**
   * The handler. The token is decoded before the body is read, and a missing or
   * invalid token is caught by the catch-all, not answered with 401. `body` is `None`
   * when the JSON or the schema check fails.
   */
  function Post(authorization: Option<string>, body: Option<ProfileInput>, s: Store, env: Env): (r: Outcome)
    ensures r.Handled? && r.response.status in {200, 400, 500}
    ensures r.response.body.ErrorBody? ==> r.response.body.key == MessageKey
    ensures !AuthUtils.DecodeAuthToken(authorization, env.jwtSecret, env.now).Verified? || body.None?
            ==> r.response == Fail(500, MessageKey, RequestFailed) && r.store == s
    ensures AuthUtils.DecodeAuthToken(authorization, env.jwtSecret, env.now).Verified? && body.Some? ==>
              r == Update(AuthUtils.DecodeAuthToken(authorization, env.jwtSecret, env.now).claims.payload.userId,
                          body.value, s, env.faults)
  {
    match AuthUtils.DecodeAuthToken(authorization, env.jwtSecret, env.now)
    case NoToken => Handled(Fail(500, MessageKey, RequestFailed), s)
    case Threw(_) => Handled(Fail(500, MessageKey, RequestFailed), s)
    case Verified(claims) =>
      match body
      case None => Handled(Fail(500, MessageKey, RequestFailed), s)
      case Some(input) => Update(claims.payload.userId, input, s, env.faults)
  }

  /**
   * Keeping one's own email is not a conflict: with unique ids and emails, a caller who
   * resubmits their current email gets the update.
   */
  lemma KeepOwnEmail(name: string, s: Store, faults: set<Query>, i: nat)
    requires WellFormed(s) && UniqueEmails(s)
    requires EmailConflictCheck !in faults && ProfileWrite !in faults
    requires i < |s.users|
    ensures Update(s.users[i].id, ProfileInput(name, s.users[i].email), s, faults).response.status == 200
  {
    var userId := s.users[i].id;
    var email := s.users[i].email;
    CountZero(s.users, (u: User) => u.email == email && u.id != userId);
    CountOne(s.users, (u: User) => u.id == userId, i);
  }

  /**
   * As written, the conflict check only refuses an email held by exactly one other
   * user: when several others hold it, `.single()` reports `PGRST116`, which reads as
   * "no conflict".
   */
  lemma SeveralHoldersNoConflict(userId: nat, input: ProfileInput, s: Store, faults: set<Query>, i: nat, j: nat)
    requires i < j < |s.users|
    requires s.users[i].email == input.email && s.users[i].id != userId
    requires s.users[j].email == input.email && s.users[j].id != userId
    ensures Update(userId, input, s, faults).response.status != 400
  {
    CountTwo(s.users, (u: User) => u.email == input.email && u.id != userId, i, j);
  }

  /** The update keeps ids, so a well-formed store stays well formed. */
  lemma PostPreservesWellFormed(authorization: Option<string>, body: Option<ProfileInput>, s: Store, env: Env)
    requires WellFormed(s)
    ensures WellFormed(Post(authorization, body, s, env).store)
  {
    var r := Post(authorization, body, s, env);
    if r.response.status == 200 {
      var userId := AuthUtils.DecodeAuthToken(authorization, env.jwtSecret, env.now).claims.payload.userId;
      RewriteUsersPreserves(s, Apply(s, userId, body.value));
    }
  }

  /**
   * When emails are unique, an update can only take an email nobody else holds, so
   * they stay unique.
   */
  lemma PostKeepsEmailsUnique(authorization: Option<string>, body: Option<ProfileInput>, s: Store, env: Env)
    requires UniqueEmails(s)
    ensures UniqueEmails(Post(authorization, body, s, env).store)
  {
    var r := Post(authorization, body, s, env);
    if r.response.status == 200 {
      var userId := AuthUtils.DecodeAuthToken(authorization, env.jwtSecret, env.now).claims.payload.userId;
      var email := body.value.email;
      var t := r.store;
      var other := (u: User) => u.email == email && u.id != userId;
      var mine := (u: User) => u.id == userId;
      CountAtMostOne(s.users, other);
      CountZero(s.users, other);
      forall a, b | 0 <= a < b < |t.users|
        ensures t.users[a].email != t.users[b].email
      {
        if s.users[a].id == userId && s.users[b].id == userId {
          CountTwo(s.users, mine, a, b);
        }
      }
    }
  }
}
