/**
 * The Supabase tables the handlers touch, and the meaning of the query builder calls
 * they use. Each table is a sequence of rows in insertion order, so "the first match"
 * is well defined; row ids come from one counter per table.
 */
module Store {
  import opened Wrappers
  import opened Time

  /** A row of the `user` table. `name` stays `null` until a profile update sets it. */
  datatype User = User(
    id: nat,
    email: string,
    passwordHash: string,
    name: Option<string>,
    lastLoginAt: Option<Instant>,
    createdAt: Instant,
    updatedAt: Instant)

  /** A row of the `workspace` table; `userId` is the owner. */
  datatype Workspace = Workspace(id: nat, name: string, userId: nat, createdAt: Instant, updatedAt: Instant)

  /** A row of the `workspace_user` join table. No handler here reads `role`. */
  datatype Membership = Membership(workspaceId: nat, userId: nat, role: string)

  /** A row of the `product` table. */
  datatype Product = Product(
    id: nat,
    name: string,
    price: int,
    imageUrl: Option<string>,
    status: string,
    workspaceId: nat,
    createdUserId: nat)

  datatype Store = Store(
    users: seq<User>,
    workspaces: seq<Workspace>,
    memberships: seq<Membership>,
    products: seq<Product>,
    nextUserId: nat,
    nextWorkspaceId: nat,
    nextProductId: nat)

  /**
   * Every query a handler issues. A query named in the request's fault set fails with
   * a transport or database error and has no effect.
   */
  datatype Query =
    | UserByEmail          // user rows with a given email (login, registration)
    | UserById             // the caller's user row (products, /me)
    | LastLoginUpdate      // stamping `lastLoginAt` at login
    | UserInsert
    | WorkspaceInsert
    | WorkspaceByOwner     // /me/workspace
    | MembershipLookup     // products
    | ProductsByWorkspace
    | ProductInsert
    | EmailConflictCheck   // profile update
    | ProfileWrite         // profile update

  /** Why a query returned no data: `PGRST116` (a `.single()` that did not see exactly one row) or any other error. */
  datatype DbError = NotExactlyOne | Unavailable

  /** `.eq(...)` filters: the rows satisfying `p`, in table order. */
  function Where<T>(rows: seq<T>, p: T -> bool): (r: seq<T>)
    ensures |r| <= |rows|
    ensures forall k :: 0 <= k < |r| ==> r[k] in rows && p(r[k])
    ensures forall i :: 0 <= i < |rows| && p(rows[i]) ==> rows[i] in r
    decreases |rows|
  {
    if |rows| == 0 then [] else (if p(rows[0]) then [rows[0]] else []) + Where(rows[1..], p)
  }

  /** The number of rows satisfying `p`. */
  function Count<T>(rows: seq<T>, p: T -> bool): nat {
    |Where(rows, p)|
  }

  /** `.limit(1)` after a filter, reduced to the row it keeps: the first row satisfying `p`. */
  function FirstWhere<T>(rows: seq<T>, p: T -> bool): (r: Option<T>)
    ensures r.None? <==> forall i :: 0 <= i < |rows| ==> !p(rows[i])
    ensures r.Some? ==> exists i :: 0 <= i < |rows| && rows[i] == r.value && p(rows[i])
                                    && forall j :: 0 <= j < i ==> !p(rows[j])
    decreases |rows|
  {
    if |rows| == 0 then None
    else if p(rows[0]) then Some(rows[0])
    else
      var r := FirstWhere(rows[1..], p);
      assert forall j :: 1 <= j < |rows| ==> rows[j] == rows[1..][j - 1];
      r
  }

  /** `.single()`: the one row when exactly one row matched, `PGRST116` otherwise. */
  function Single<T>(rows: seq<T>): (r: Result<T, DbError>)
    ensures r.Ok? <==> |rows| == 1
    ensures r.Ok? ==> r.value == rows[0]
    ensures r.Err? ==> r.error == NotExactlyOne
  {
    if |rows| == 1 then Ok(rows[0]) else Err(NotExactlyOne)
  }

  /** Every row satisfying `p` is `x`. */
  lemma OnlyMatch<T>(rows: seq<T>, p: T -> bool)
    requires |Where(rows, p)| == 1
    ensures forall i :: 0 <= i < |rows| && p(rows[i]) ==> rows[i] == Where(rows, p)[0]
  {
    forall i | 0 <= i < |rows| && p(rows[i])
      ensures rows[i] == Where(rows, p)[0]
    {
      assert rows[i] in Where(rows, p);
    }
  }

  /**
   * A filter followed by `.single()`, failing when `q` is in `faults`: the unique row
   * satisfying `p`, `PGRST116` when there are none or several.
   */
  function SingleQuery<T>(q: Query, faults: set<Query>, rows: seq<T>, p: T -> bool): (r: Result<T, DbError>)
    ensures q in faults ==> r == Err(Unavailable)
    ensures q !in faults ==> (r.Ok? <==> Count(rows, p) == 1)
    ensures q !in faults && r.Err? ==> r.error == NotExactlyOne
    ensures r.Ok? ==> r.value in rows && p(r.value)
    ensures r.Ok? ==> forall i :: 0 <= i < |rows| && p(rows[i]) ==> rows[i] == r.value
  {
    if q in faults then Err(Unavailable)
    else
      var r := Single(Where(rows, p));
      if r.Ok? then OnlyMatch(rows, p); r else r
  }

  /** `.update(f).eq(...)`: every row satisfying `p` is rewritten by `f`; the others stay. */
  function UpdateWhere<T>(rows: seq<T>, p: T -> bool, f: T -> T): (r: seq<T>)
    ensures |r| == |rows|
    ensures forall i :: 0 <= i < |rows| ==> r[i] == if p(rows[i]) then f(rows[i]) else rows[i]
  {
    seq(|rows|, i requires 0 <= i < |rows| => if p(rows[i]) then f(rows[i]) else rows[i])
  }

  /** Filtering keeps every matching row exactly as often as the table holds it, and no other row. */
  lemma {:induction false} WhereMultiset<T>(rows: seq<T>, p: T -> bool)
    ensures forall x :: multiset(Where(rows, p))[x] == if p(x) then multiset(rows)[x] else 0
    decreases |rows|
  {
    if |rows| > 0 {
      WhereMultiset(rows[1..], p);
      assert rows == [rows[0]] + rows[1..];
    }
  }

  /** No row matches exactly when the count is zero. */
  lemma CountZero<T>(rows: seq<T>, p: T -> bool)
    ensures Count(rows, p) == 0 <==> forall i :: 0 <= i < |rows| ==> !p(rows[i])
  {
    if Count(rows, p) != 0 {
      var x := Where(rows, p)[0];
      assert x in rows && p(x);
      var i :| 0 <= i < |rows| && rows[i] == x;
    }
  }

  /** Two matching rows make the count at least two. */
  lemma {:induction false} CountTwo<T>(rows: seq<T>, p: T -> bool, i: nat, j: nat)
    requires i < j < |rows| && p(rows[i]) && p(rows[j])
    ensures Count(rows, p) >= 2
    decreases |rows|
  {
    if i == 0 {
      assert rows[1..][j - 1] == rows[j];
      CountZero(rows[1..], p);
    } else {
      CountTwo(rows[1..], p, i - 1, j - 1);
    }
  }

  /** When no two rows match, the count is at most one. */
  lemma {:induction false} CountAtMostOne<T>(rows: seq<T>, p: T -> bool)
    requires forall i, j :: 0 <= i < j < |rows| && p(rows[i]) ==> !p(rows[j])
    ensures Count(rows, p) <= 1
    decreases |rows|
  {
    if |rows| > 0 {
      CountAtMostOne(rows[1..], p);
      if p(rows[0]) {
        assert forall j :: 0 <= j < |rows[1..]| ==> !p(rows[1..][j]) by {
          forall j | 0 <= j < |rows[1..]|
            ensures !p(rows[1..][j])
          {
            assert rows[1..][j] == rows[j + 1];
          }
        }
        CountZero(rows[1..], p);
      }
    }
  }

  /** Rows that match pointwise alike have equal counts. */
  lemma {:induction false} CountAgree<T>(a: seq<T>, b: seq<T>, p: T -> bool)
    requires |a| == |b| && forall i :: 0 <= i < |a| ==> p(a[i]) == p(b[i])
    ensures Count(a, p) == Count(b, p)
    decreases |a|
  {
    if |a| > 0 {
      assert forall i :: 0 <= i < |a[1..]| ==> a[1..][i] == a[i + 1] && b[1..][i] == b[i + 1];
      CountAgree(a[1..], b[1..], p);
    }
  }

  /** A row that is the only match makes the count exactly one. */
  lemma CountOne<T>(rows: seq<T>, p: T -> bool, k: nat)
    requires k < |rows| && p(rows[k])
    requires forall i :: 0 <= i < |rows| && p(rows[i]) ==> i == k
    ensures Count(rows, p) == 1
  {
    CountAtMostOne(rows, p);
    CountZero(rows, p);
  }

  /**
   * Row ids are distinct within each table and below the table's next id, and every
   * reference to a user or a workspace names an id that has been handed out.
   */
  ghost predicate WellFormed(s: Store) {
    && (forall i :: 0 <= i < |s.users| ==> s.users[i].id < s.nextUserId)
    && (forall i, j :: 0 <= i < j < |s.users| ==> s.users[i].id != s.users[j].id)
    && (forall i :: 0 <= i < |s.workspaces| ==> s.workspaces[i].id < s.nextWorkspaceId)
    && (forall i, j :: 0 <= i < j < |s.workspaces| ==> s.workspaces[i].id != s.workspaces[j].id)
    && (forall i :: 0 <= i < |s.products| ==> s.products[i].id < s.nextProductId)
    && (forall i, j :: 0 <= i < j < |s.products| ==> s.products[i].id != s.products[j].id)
    && (forall i :: 0 <= i < |s.workspaces| ==> s.workspaces[i].userId < s.nextUserId)
    && (forall i :: 0 <= i < |s.memberships| ==>
          s.memberships[i].userId < s.nextUserId && s.memberships[i].workspaceId < s.nextWorkspaceId)
    && (forall i :: 0 <= i < |s.products| ==>
          s.products[i].createdUserId < s.nextUserId && s.products[i].workspaceId < s.nextWorkspaceId)
  }

  /** No two users share an email address. The handlers check this; the model's tables do not enforce it. */
  ghost predicate UniqueEmails(s: Store) {
    forall i, j :: 0 <= i < j < |s.users| ==> s.users[i].email != s.users[j].email
  }

  /** Inserting a user row with the next user id keeps the store well formed. */
  lemma InsertUserPreserves(s: Store, u: User)
    requires WellFormed(s) && u.id == s.nextUserId
    ensures WellFormed(s.(users := s.users + [u], nextUserId := s.nextUserId + 1))
  {
  }

  /** Inserting a workspace row with the next workspace id and an issued owner id keeps the store well formed. */
  lemma InsertWorkspacePreserves(s: Store, w: Workspace)
    requires WellFormed(s) && w.id == s.nextWorkspaceId && w.userId < s.nextUserId
    ensures WellFormed(s.(workspaces := s.workspaces + [w], nextWorkspaceId := s.nextWorkspaceId + 1))
  {
  }

  /** Inserting a product row with the next product id and issued references keeps the store well formed. */
  lemma InsertProductPreserves(s: Store, p: Product)
    requires WellFormed(s) && p.id == s.nextProductId
    requires p.createdUserId < s.nextUserId && p.workspaceId < s.nextWorkspaceId
    ensures WellFormed(s.(products := s.products + [p], nextProductId := s.nextProductId + 1))
  {
  }

  /** Only the rows of the `user` table may differ between `s` and `t`. */
  predicate OnlyUsersDiffer(s: Store, t: Store) {
    t == s.(users := t.users)
  }

  /**
   * A rewrite of user rows that keeps their number, ids and emails keeps both
   * invariants: `t.users[i]` is the rewritten `s.users[i]`.
   */
  lemma RewriteUsersPreserves(s: Store, t: Store)
    requires OnlyUsersDiffer(s, t) && |t.users| == |s.users|
    requires forall i :: 0 <= i < |s.users| ==> t.users[i].id == s.users[i].id
    ensures WellFormed(s) ==> WellFormed(t)
    ensures (forall i :: 0 <= i < |s.users| ==> t.users[i].email == s.users[i].email)
            ==> UniqueEmails(s) ==> UniqueEmails(t)
  {
  }
}
