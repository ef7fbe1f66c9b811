/**
 * The account manager: registration gated by a one-time code, activation,
 * login with a session row per login, refresh of the access token,
 * promotion, and the administrative listing, read, update and delete of
 * users, over the user and session tables.
 */
module Accounts {
  import opened Wrappers
  import opened Crypto
  import Tables
  import Ordering
  import Text
  import opened Params

  datatype Role = Admin | User | Ceo | SuperAdmin
  datatype Status = Active | Inactive

  function RoleName(r: Role): string {
    match r
    case Admin => "Admin"
    case User => "User"
    case Ceo => "Ceo"
    case SuperAdmin => "SuperAdmin"
  }

  function StatusName(s: Status): string {
    match s
    case Active => "Active"
    case Inactive => "Inactive"
  }

  /** The store's reading of a role name; None for a name outside the enumeration. */
  function ParseRole(s: string): (r: Option<Role>)
    ensures r.Some? <==> s in {"Admin", "User", "Ceo", "SuperAdmin"}
    ensures r.Some? ==> RoleName(r.value) == s
  {
    if s == "Admin" then Some(Admin)
    else if s == "User" then Some(User)
    else if s == "Ceo" then Some(Ceo)
    else if s == "SuperAdmin" then Some(SuperAdmin)
    else None
  }

  function ParseStatus(s: string): (r: Option<Status>)
    ensures r.Some? <==> s in {"Active", "Inactive"}
    ensures r.Some? ==> StatusName(r.value) == s
  {
    if s == "Active" then Some(Active)
    else if s == "Inactive" then Some(Inactive)
    else None
  }

  lemma RoleNameRoundTrip(r: Role)
    ensures ParseRole(RoleName(r)) == Some(r)
  {
  }

  lemma StatusNameRoundTrip(s: Status)
    ensures ParseStatus(StatusName(s)) == Some(s)
  {
  }

  /** A row of the user table; `password` holds the bcrypt digest. */
  datatype UserRow = UserRow(
    id: string, fullName: string, yearOfBirth: int, email: string, password: string,
    phone: string, role: Role, avatar: Option<string>, status: Status, createdAt: nat)

  /** The columns the listing and the read select: every column but the digest. */
  datatype PublicUser = PublicUser(
    id: string, fullName: string, yearOfBirth: int, email: string, role: Role,
    avatar: Option<string>, status: Status, phone: string)

  function Public(u: UserRow): (v: PublicUser)
    ensures v.id == u.id && v.email == u.email && v.role == u.role && v.status == u.status
  {
    PublicUser(u.id, u.fullName, u.yearOfBirth, u.email, u.role, u.avatar, u.status, u.phone)
  }

  /** A row of the session table: one per successful login. */
  datatype Session = Session(
    id: string, userId: string, ipAddress: string, deviceInfo: Option<string>, createdAt: nat)

  /** A registration body, as the user schema returns it. */
  datatype NewUser = NewUser(
    fullName: string, yearOfBirth: int, email: string, password: string, phone: string,
    role: Option<Role>, avatar: Option<string>)

  /** An update body: the fields present in it. */
  datatype UserPatch = UserPatch(
    fullName: Option<string>, yearOfBirth: Option<int>, email: Option<string>,
    password: Option<string>, phone: Option<string>, role: Option<Role>,
    avatar: Option<string>, status: Option<Status>)

  /** The user schemas, which are not part of this model: each gives the first error message, or None. */
  datatype UserValidators = UserValidators(
    onRegister: NewUser -> Option<string>, onUpdate: UserPatch -> Option<string>)

  datatype Config = Config(prims: Primitives, env: Env, validators: UserValidators)

  /** The caller as the authentication middleware records it (`req.user`). */
  datatype Caller = Caller(id: string, role: string)

  /** The one-time-code mail handed to the mail transport. */
  datatype Mail = Mail(to: string, code: string)

  datatype Payload =
    | Message(text: string)
    | Row(user: UserRow)
    | TokenPair(accessToken: string, refreshToken: string)
    | AccessToken(token: string)
    | Page(total: nat, page: int, totalPages: int, data: seq<PublicUser>)
    | Profile(profile: PublicUser)

  datatype Reply = Reply(code: nat, payload: Payload)

  function IdOf(u: UserRow): string { u.id }
  function EmailOf(u: UserRow): string { u.email }
  function SessionIdOf(s: Session): string { s.id }

  /** The user and session tables. */
  class AccountTables {
    var users: seq<UserRow>
    var sessions: seq<Session>

    /** Primary keys and the unique email column. */
    ghost predicate Valid()
      reads this
    {
      && Tables.DistinctKeys(users, IdOf)
      && Tables.DistinctKeys(users, EmailOf)
      && Tables.DistinctKeys(sessions, SessionIdOf)
    }

    constructor ()
      ensures Valid() && users == [] && sessions == []
    {
      users := [];
      sessions := [];
    }
  }

  function UserById(users: seq<UserRow>, id: string): Option<nat> {
    Tables.IndexOfKey(users, IdOf, id)
  }

  function UserByEmail(users: seq<UserRow>, email: string): Option<nat> {
    Tables.IndexOfKey(users, EmailOf, email)
  }

  // ---------------------------------------------------------------- register

  /** The row `register` inserts: the body with the digest in place of the password. */
  function NewRow(cfg: Config, body: NewUser, id: string, salt: string, now: nat): (u: UserRow)
    ensures u.id == id && u.email == body.email && u.status == Inactive
    ensures u.role == body.role.GetOr(User)
    ensures Sound(cfg.prims) ==> cfg.prims.compare(body.password, u.password)
  {
    UserRow(id, body.fullName, body.yearOfBirth, body.email, cfg.prims.hash(body.password, salt),
            body.phone, body.role.GetOr(User), body.avatar, Inactive, now)
  }

  /** The code mailed at registration and checked at activation. */
  function CodeFor(cfg: Config, email: string, now: nat): string {
    cfg.prims.code(CodeSecret(cfg.env, email), TimeStep(now))
  }

  /**
   * A taken email answers 405 before the body is validated; an invalid body
   * answers 422; otherwise the row is inserted, then the code is mailed, and a
   * failed mail answers 500 with the row kept.
   */
  method Register(db: AccountTables, cfg: Config, body: NewUser, newId: string, salt: string,
                  now: nat, mailDelivered: bool)
    returns (r: Reply, mail: Option<Mail>)
    requires db.Valid()
    requires UserById(db.users, newId).None?
    modifies db`users
    ensures db.Valid()
    ensures UserByEmail(old(db.users), body.email).Some? ==>
      r.code == 405 && db.users == old(db.users) && mail.None?
    ensures UserByEmail(old(db.users), body.email).None? && cfg.validators.onRegister(body).Some? ==>
      r == Reply(422, Message(cfg.validators.onRegister(body).value)) && db.users == old(db.users) && mail.None?
    ensures UserByEmail(old(db.users), body.email).None? && cfg.validators.onRegister(body).None? ==>
      && db.users == old(db.users) + [NewRow(cfg, body, newId, salt, now)]
      && mail == Some(Mail(body.email, CodeFor(cfg, body.email, now)))
      && r == (if mailDelivered then Reply(200, Row(NewRow(cfg, body, newId, salt, now)))
               else Reply(500, Message("mail transport failed")))
  {
    mail := None;
    if UserByEmail(db.users, body.email).Some? {
      r := Reply(405, Message("This account already exists"));
      return;
    }
    var error := cfg.validators.onRegister(body);
    if error.Some? {
      r := Reply(422, Message(error.value));
      return;
    }
    var row := NewRow(cfg, body, newId, salt, now);
    Tables.AppendDistinct(db.users, IdOf, row);
    Tables.AppendDistinct(db.users, EmailOf, row);
    db.users := db.users + [row];
    mail := Some(Mail(body.email, CodeFor(cfg, body.email, now)));
    if !mailDelivered {
      r := Reply(500, Message("mail transport failed"));
      return;
    }
    r := Reply(200, Row(row));
  }

  // --------------------------------------------------------------- verifyOtp

  /**
   * An unknown email answers 405 and a wrong code 403, neither writing; a
   * correct code activates an Inactive user, and an Active one is not written
   * but still gets 200.
   */
  method VerifyOtp(db: AccountTables, cfg: Config, email: string, otp: string, now: nat)
    returns (r: Reply)
    requires db.Valid()
    modifies db`users
    ensures db.Valid()
    ensures UserByEmail(old(db.users), email).None? ==> r.code == 405 && db.users == old(db.users)
    ensures UserByEmail(old(db.users), email).Some? && otp != CodeFor(cfg, email, now) ==>
      r.code == 403 && db.users == old(db.users)
    ensures UserByEmail(old(db.users), email).Some? && otp == CodeFor(cfg, email, now) ==>
      var i := UserByEmail(old(db.users), email).value;
      && r.code == 200
      && db.users == old(db.users)[i := old(db.users)[i].(status := Active)]
      && (old(db.users)[i].status == Active ==> db.users == old(db.users))
  {
    var found := UserByEmail(db.users, email);
    if found.None? {
      r := Reply(405, Message("Email is incorrect"));
      return;
    }
    if otp != CodeFor(cfg, email, now) {
      r := Reply(403, Message("OTP is incorrect"));
      return;
    }
    var i := found.value;
    if db.users[i].status == Inactive {
      var row := db.users[i].(status := Active);
      Tables.UpdateDistinct(db.users, IdOf, i, row);
      Tables.UpdateDistinct(db.users, EmailOf, i, row);
      db.users := db.users[i := row];
    } else {
      assert db.users[i := db.users[i].(status := Active)] == db.users;
    }
    r := Reply(200, Message("Your account has been activated successfully"));
  }

  // ------------------------------------------------------------------- login

  /** The claims `login` signs: `{id, role}`. */
  function LoginClaims(u: UserRow): Claims {
    Claims(u.id, None, RoleName(u.role))
  }

  /** The access token (15 minutes, literal key) and refresh token (7 days, literal key) of a login. */
  function LoginTokens(p: Primitives, u: UserRow, now: nat): (t: (string, string))
    ensures Sound(p) ==> forall at :: now <= at < now + AccessTtl ==>
      p.verify(t.0, AccessLiteral, at) == Some(LoginClaims(u))
    ensures Sound(p) ==> forall at :: now <= at < now + RefreshTtl ==>
      p.verify(t.1, RefreshLiteral, at) == Some(LoginClaims(u))
  {
    (p.sign(LoginClaims(u), AccessLiteral, AccessTtl, now),
     p.sign(LoginClaims(u), RefreshLiteral, RefreshTtl, now))
  }

  /**
   * An unknown email answers 404 and a wrong password 401, neither adding a
   * session; otherwise one session is appended and both tokens returned. The
   * account status is never consulted.
   */
  method Login(db: AccountTables, cfg: Config, email: string, password: string, ip: string,
               userAgent: Option<string>, now: nat, sessionId: string)
    returns (r: Reply)
    requires db.Valid()
    requires Tables.IndexOfKey(db.sessions, SessionIdOf, sessionId).None?
    modifies db`sessions
    ensures db.Valid()
    ensures UserByEmail(db.users, email).None? ==> r.code == 404 && db.sessions == old(db.sessions)
    ensures UserByEmail(db.users, email).Some? ==>
      var u := db.users[UserByEmail(db.users, email).value];
      if !cfg.prims.compare(password, u.password) then
        r.code == 401 && db.sessions == old(db.sessions)
      else
        var t := LoginTokens(cfg.prims, u, now);
        && r == Reply(200, TokenPair(t.0, t.1))
        && db.sessions == old(db.sessions) + [Session(sessionId, u.id, ip, userAgent, now)]
  {
    var found := UserByEmail(db.users, email);
    if found.None? {
      r := Reply(404, Message("User not found"));
      return;
    }
    var u := db.users[found.value];
    if !cfg.prims.compare(password, u.password) {
      r := Reply(401, Message("Invalid password"));
      return;
    }
    var t := LoginTokens(cfg.prims, u, now);
    var row := Session(sessionId, u.id, ip, userAgent, now);
    Tables.AppendDistinct(db.sessions, SessionIdOf, row);
    db.sessions := db.sessions + [row];
    r := Reply(200, TokenPair(t.0, t.1));
  }

  // ------------------------------------------------------ token generation

  /** `accessTokenGenereate`: signs with `ACCESS_KEY`, falling back to the literal, for 15 minutes. */
  function AccessTokenGenerate(cfg: Config, payload: Claims, now: nat): (t: string)
    ensures Sound(cfg.prims) ==> forall at :: now <= at < now + AccessTtl ==>
      cfg.prims.verify(t, OrLiteral(cfg.env.accessKey, AccessLiteral), at) == Some(payload)
    ensures Sound(cfg.prims) ==> forall at :: at >= now + AccessTtl ==>
      cfg.prims.verify(t, OrLiteral(cfg.env.accessKey, AccessLiteral), at).None?
  {
    cfg.prims.sign(payload, OrLiteral(cfg.env.accessKey, AccessLiteral), AccessTtl, now)
  }

  /** `refreshTokenGenereate`: signs with `REFRESH_KEY`, falling back to the literal, for 7 days. */
  function RefreshTokenGenerate(cfg: Config, payload: Claims, now: nat): (t: string)
    ensures Sound(cfg.prims) ==> forall at :: now <= at < now + RefreshTtl ==>
      cfg.prims.verify(t, OrLiteral(cfg.env.refreshKey, RefreshLiteral), at) == Some(payload)
    ensures Sound(cfg.prims) ==> forall at :: at >= now + RefreshTtl ==>
      cfg.prims.verify(t, OrLiteral(cfg.env.refreshKey, RefreshLiteral), at).None?
  {
    cfg.prims.sign(payload, OrLiteral(cfg.env.refreshKey, RefreshLiteral), RefreshTtl, now)
  }

  // ------------------------------------------------------- getNewAccessToken

  /** The claims of the refreshed access token: `{id, email, role}` of the current row. */
  function RefreshClaims(u: UserRow): Claims {
    Claims(u.id, Some(u.email), RoleName(u.role))
  }

  /**
   * A refresh token that does not verify under `REFRESH_KEY` (or its literal)
   * answers 400; a verified id without a row answers 404; otherwise a new
   * access token over the current row. Nothing is written and the refresh
   * token is not rotated.
   */
  function GetNewAccessToken(users: seq<UserRow>, cfg: Config, refreshToken: string, now: nat)
    : (r: Reply)
    ensures var v := cfg.prims.verify(refreshToken, OrLiteral(cfg.env.refreshKey, RefreshLiteral), now);
      && (r.code == 400 <==> v.None?)
      && (r.code == 404 <==> v.Some? && UserById(users, v.value.id).None?)
      && (r.code == 200 <==> v.Some? && UserById(users, v.value.id).Some?)
      && (r.code == 200 ==>
            var u := users[UserById(users, v.value.id).value];
            u.id == v.value.id && r.payload == AccessToken(AccessTokenGenerate(cfg, RefreshClaims(u), now)))
  {
    match cfg.prims.verify(refreshToken, OrLiteral(cfg.env.refreshKey, RefreshLiteral), now)
    case None => Reply(400, Message("invalid refresh token"))
    case Some(claims) =>
      match UserById(users, claims.id)
      case None => Reply(404, Message("User not found"))
      case Some(i) =>
        Reply(200, AccessToken(AccessTokenGenerate(cfg, RefreshClaims(users[i]), now)))
  }

  // ---------------------------------------------------------- promoteToAdmin

  /** Sets the role to Admin whatever the caller and the current role; a missing row answers 400. */
  method PromoteToAdmin(db: AccountTables, id: string) returns (r: Reply)
    requires db.Valid()
    modifies db`users
    ensures db.Valid()
    ensures UserById(old(db.users), id).None? ==> r.code == 400 && db.users == old(db.users)
    ensures UserById(old(db.users), id).Some? ==>
      var i := UserById(old(db.users), id).value;
      r.code == 200 && db.users == old(db.users)[i := old(db.users)[i].(role := Admin)]
  {
    var found := UserById(db.users, id);
    if found.None? {
      r := Reply(400, Message("Record to update not found"));
      return;
    }
    var i := found.value;
    var row := db.users[i].(role := Admin);
    Tables.UpdateDistinct(db.users, IdOf, i, row);
    Tables.UpdateDistinct(db.users, EmailOf, i, row);
    db.users := db.users[i := row];
    r := Reply(200, Message("Updated successfully"));
  }

  // ----------------------------------------------------------------- findAll

  datatype UserQuery = UserQuery(
    page: NumParam, limit: NumParam, sort: Option<string>, order: Option<string>,
    status: Option<string>, role: Option<string>, search: Option<string>)

  /** The `where` of the listing. */
  datatype UserWhere = UserWhere(status: Option<Status>, role: Option<Role>, search: Option<string>)

  /** The filter the store is given; None when it rejects a status or role outside its enumeration. */
  function WhereOf(q: UserQuery): Option<UserWhere> {
    var status := if Given(q.status) then ParseStatus(q.status.value) else None;
    var role := if Given(q.role) then ParseRole(q.role.value) else None;
    if Given(q.status) && status.None? then None
    else if Given(q.role) && role.None? then None
    else Some(UserWhere(status, role, if Given(q.search) then q.search else None))
  }

  /** Status, role and case-sensitive search in full name or email, each only when given. */
  predicate MatchesUser(w: UserWhere, u: UserRow) {
    && (w.status.Some? ==> u.status == w.status.value)
    && (w.role.Some? ==> u.role == w.role.value)
    && (w.search.Some? ==> Text.Contains(u.fullName, w.search.value) || Text.Contains(u.email, w.search.value))
  }

  /** The columns the listing can order by. */
  datatype UserColumn =
    ById | ByFullName | ByYearOfBirth | ByEmail | ByPassword | ByPhone | ByRole | ByAvatar | ByStatus | ByCreatedAt

  /** The store orders an enum column by the position of the value in the enum's declaration. */
  function RoleRank(r: Role): nat {
    match r
    case Admin => 0
    case User => 1
    case Ceo => 2
    case SuperAdmin => 3
  }

  function StatusRank(s: Status): nat {
    match s
    case Active => 0
    case Inactive => 1
  }

  function UserColumnOf(name: string): Option<UserColumn> {
    if name == "id" then Some(ById)
    else if name == "fullName" then Some(ByFullName)
    else if name == "yearOfBirth" then Some(ByYearOfBirth)
    else if name == "email" then Some(ByEmail)
    else if name == "password" then Some(ByPassword)
    else if name == "phone" then Some(ByPhone)
    else if name == "role" then Some(ByRole)
    else if name == "avatar" then Some(ByAvatar)
    else if name == "status" then Some(ByStatus)
    else if name == "createdAt" then Some(ByCreatedAt)
    else None
  }

  function UserKey(c: UserColumn, u: UserRow): Ordering.Key {
    match c
    case ById => Ordering.Text(u.id)
    case ByFullName => Ordering.Text(u.fullName)
    case ByYearOfBirth => Ordering.Number(u.yearOfBirth as real)
    case ByEmail => Ordering.Text(u.email)
    case ByPassword => Ordering.Text(u.password)
    case ByPhone => Ordering.Text(u.phone)
    case ByRole => Ordering.Number(RoleRank(u.role) as real)
    case ByAvatar => if u.avatar.Some? then Ordering.Text(u.avatar.value) else Ordering.Null
    case ByStatus => Ordering.Number(StatusRank(u.status) as real)
    case ByCreatedAt => Ordering.Number(u.createdAt as real)
  }

  /** `orderBy: {[sort]: order}`, defaults createdAt and desc; None when the store rejects it. */
  function OrderOf(q: UserQuery): Option<(UserColumn, bool)> {
    var column := UserColumnOf(q.sort.GetOr("createdAt"));
    var order := q.order.GetOr("desc");
    if column.None? || (order != "asc" && order != "desc") then None
    else Some((column.value, order == "desc"))
  }

  function PageNumber(q: UserQuery): (n: int)
    ensures n != 0
  {
    OrFallback(q.page, 1)
  }

  function PageSize(q: UserQuery): (n: int)
    ensures n != 0
  {
    OrFallback(q.limit, 10)
  }

  /** The users matching the filter, in the requested order. */
  function ListedUsers(users: seq<UserRow>, w: UserWhere, order: (UserColumn, bool)): seq<UserRow> {
    Ordering.Sort(Tables.Filter(users, u => MatchesUser(w, u)), u => UserKey(order.0, u), order.1)
  }

  function PublicAll(rows: seq<UserRow>): (r: seq<PublicUser>)
    ensures |r| == |rows| && forall i :: 0 <= i < |rows| ==> r[i] == Public(rows[i])
  {
    seq(|rows|, i requires 0 <= i < |rows| => Public(rows[i]))
  }

  /**
   * The page served for a query the store accepts: `(page - 1) * limit` rows
   * skipped and at most `limit` kept, counted from the end when `limit` is
   * negative, with the total count and `Math.ceil(total / limit)` pages.
   */
  function ServePage(listed: seq<UserRow>, page: int, limit: int): (p: Payload)
    requires limit != 0 && (page - 1) * limit >= 0
    ensures p.Page? && p.page == page && p.total == |listed|
    ensures limit > 0 ==> p.totalPages * limit >= p.total && (p.totalPages - 1) * limit < p.total
    ensures limit < 0 ==> p.totalPages * limit <= p.total && (p.totalPages - 1) * limit > p.total
    ensures var skip := (page - 1) * limit;
      |p.data| == if skip >= |listed| then 0 else Tables.Min(if limit > 0 then limit else -limit, |listed| - skip)
    ensures limit > 0 ==> forall i :: 0 <= i < |p.data| ==> p.data[i] == Public(listed[(page - 1) * limit + i])
    ensures limit < 0 ==> forall i :: 0 <= i < |p.data| ==>
      p.data[i] == Public(listed[|listed| - (page - 1) * limit - |p.data| + i])
  {
    var skip := (page - 1) * limit;
    var rows := Tables.Slice(listed, skip, limit).value;
    Page(|listed|, page, Tables.Ceil(|listed|, limit), PublicAll(rows))
  }

  /**
   * Only an Admin caller is served; a filter, order or offset the store
   * rejects answers 500; otherwise the page of the matching users.
   */
  function FindAll(users: seq<UserRow>, caller: Caller, q: UserQuery): (r: Reply)
    ensures r.code == 403 <==> caller.role != "Admin"
    ensures r.code == 200 <==>
      caller.role == "Admin" && WhereOf(q).Some? && OrderOf(q).Some? && (PageNumber(q) - 1) * PageSize(q) >= 0
    ensures r.code == 200 ==>
      r.payload == ServePage(ListedUsers(users, WhereOf(q).value, OrderOf(q).value), PageNumber(q), PageSize(q))
  {
    if caller.role != "Admin" then Reply(403, Message("You are not allowed"))
    else if WhereOf(q).None? || OrderOf(q).None? || (PageNumber(q) - 1) * PageSize(q) < 0 then
      Reply(500, Message("invalid query"))
    else
      Reply(200, ServePage(ListedUsers(users, WhereOf(q).value, OrderOf(q).value), PageNumber(q), PageSize(q)))
  }

  /** Every listed user matches the filter, every matching user is listed, and the list is ordered. */
  lemma ListedUsersSpec(users: seq<UserRow>, w: UserWhere, order: (UserColumn, bool))
    ensures var listed := ListedUsers(users, w, order);
      && multiset(listed) == multiset(Tables.Filter(users, u => MatchesUser(w, u)))
      && (forall u :: u in listed <==> u in users && MatchesUser(w, u))
      && Ordering.SortedBy(listed, u => UserKey(order.0, u), order.1)
  {
    var matching := Tables.Filter(users, u => MatchesUser(w, u));
    var listed := ListedUsers(users, w, order);
    Ordering.SortSorted(matching, u => UserKey(order.0, u), order.1);
    forall u ensures u in listed <==> u in users && MatchesUser(w, u) {
      assert u in listed <==> u in multiset(listed);
      assert u in matching <==> u in multiset(matching);
    }
  }

  // ----------------------------------------------------------------- findOne

  /** A missing id answers 404; otherwise the row without its digest. */
  function FindOne(users: seq<UserRow>, id: string): (r: Reply)
    ensures r.code == 404 <==> forall i :: 0 <= i < |users| ==> users[i].id != id
    ensures r.code != 404 ==>
      exists i :: 0 <= i < |users| && users[i].id == id && r == Reply(200, Profile(Public(users[i])))
  {
    match UserById(users, id)
    case None => Reply(404, Message("User not found"))
    case Some(i) => Reply(200, Profile(Public(users[i])))
  }

  // ------------------------------------------------------------------ update

  /**
   * The row after an update: each field present in the patch replaces the
   * stored one, each absent field keeps it, and the password column takes
   * the digest when there is one.
   */
  function ApplyPatch(u: UserRow, patch: UserPatch, digest: Option<string>): (v: UserRow)
    ensures v.id == u.id && v.createdAt == u.createdAt
    ensures v.fullName == if patch.fullName.Some? then patch.fullName.value else u.fullName
    ensures v.yearOfBirth == if patch.yearOfBirth.Some? then patch.yearOfBirth.value else u.yearOfBirth
    ensures v.email == if patch.email.Some? then patch.email.value else u.email
    ensures digest.Some? ==> v.password == digest.value
    ensures digest.None? ==> v.password == if patch.password.Some? then patch.password.value else u.password
    ensures v.phone == if patch.phone.Some? then patch.phone.value else u.phone
    ensures v.role == if patch.role.Some? then patch.role.value else u.role
    ensures v.avatar == if patch.avatar.Some? then patch.avatar else u.avatar
    ensures v.status == if patch.status.Some? then patch.status.value else u.status
    ensures patch == UserPatch(None, None, None, None, None, None, None, None) && digest.None? ==> v == u
  {
    UserRow(
      u.id,
      patch.fullName.GetOr(u.fullName),
      patch.yearOfBirth.GetOr(u.yearOfBirth),
      patch.email.GetOr(u.email),
      if digest.Some? then digest.value else patch.password.GetOr(u.password),
      patch.phone.GetOr(u.phone),
      patch.role.GetOr(u.role),
      if patch.avatar.Some? then patch.avatar else u.avatar,
      patch.status.GetOr(u.status),
      u.createdAt)
  }

  /** `if (value.password) value.password = await bcrypt.hash(...)`: only a non-empty password is hashed. */
  function PatchDigest(p: Primitives, patch: UserPatch, salt: string): (d: Option<string>)
    ensures d.Some? <==> patch.password.Some? && patch.password.value != ""
    ensures Sound(p) && d.Some? ==> p.compare(patch.password.value, d.value)
  {
    if patch.password.Some? && patch.password.value != "" then Some(p.hash(patch.password.value, salt))
    else None
  }

  /** The email of the patch is already held by another row: the unique column rejects it. */
  predicate EmailClash(users: seq<UserRow>, i: nat, patch: UserPatch) {
    patch.email.Some? && exists j :: 0 <= j < |users| && j != i && users[j].email == patch.email.value
  }

  /**
   * An invalid patch answers 422; a caller that is neither SuperAdmin nor
   * Admin answers 403; a missing target also answers 403; otherwise only the
   * fields of the patch change, the password hashed.
   */
  method Update(db: AccountTables, cfg: Config, caller: Caller, id: string, patch: UserPatch,
                salt: string)
    returns (r: Reply)
    requires db.Valid()
    modifies db`users
    ensures db.Valid()
    ensures cfg.validators.onUpdate(patch).Some? ==>
      r == Reply(422, Message(cfg.validators.onUpdate(patch).value)) && db.users == old(db.users)
    ensures cfg.validators.onUpdate(patch).None? && caller.role !in ["SuperAdmin", "Admin"] ==>
      r.code == 403 && db.users == old(db.users)
    ensures cfg.validators.onUpdate(patch).None? && caller.role in ["SuperAdmin", "Admin"] ==>
      if UserById(old(db.users), id).None? then
        r.code == 403 && db.users == old(db.users)
      else
        var i := UserById(old(db.users), id).value;
        if EmailClash(old(db.users), i, patch) then
          r.code == 400 && db.users == old(db.users)
        else
          var row := ApplyPatch(old(db.users)[i], patch, PatchDigest(cfg.prims, patch, salt));
          r == Reply(200, Row(row)) && db.users == old(db.users)[i := row]
  {
    var error := cfg.validators.onUpdate(patch);
    if error.Some? {
      r := Reply(422, Message(error.value));
      return;
    }
    var digest := PatchDigest(cfg.prims, patch, salt);
    if caller.role !in ["SuperAdmin", "Admin"] {
      r := Reply(403, Message("Only SuperAdmin and Admin can update User"));
      return;
    }
    var found := UserById(db.users, id);
    if found.None? {
      r := Reply(403, Message("User not found"));
      return;
    }
    var i := found.value;
    if EmailClash(db.users, i, patch) {
      r := Reply(400, Message("Unique constraint failed on the fields: (`email`)"));
      return;
    }
    var row := ApplyPatch(db.users[i], patch, digest);
    Tables.UpdateDistinct(db.users, IdOf, i, row);
    UpdateKeepsEmailsDistinct(db.users, i, patch, row);
    db.users := db.users[i := row];
    r := Reply(200, Row(row));
  }

  lemma UpdateKeepsEmailsDistinct(users: seq<UserRow>, i: nat, patch: UserPatch, row: UserRow)
    requires Tables.DistinctKeys(users, EmailOf)
    requires i < |users| && !EmailClash(users, i, patch)
    requires row.email == patch.email.GetOr(users[i].email)
    ensures Tables.DistinctKeys(users[i := row], EmailOf)
  {
    var v := users[i := row];
    forall a, b | 0 <= a < |v| && 0 <= b < |v| && a != b
      ensures EmailOf(v[a]) != EmailOf(v[b])
    {
      if a == i && patch.email.Some? {
        assert !(0 <= b < |users| && b != i && users[b].email == patch.email.value);
      } else if b == i && patch.email.Some? {
        assert !(0 <= a < |users| && a != i && users[a].email == patch.email.value);
      }
    }
  }

  // ------------------------------------------------------------------ remove

  /**
   * A missing target answers 404; an Admin target answers 403; any other role
   * but User answers 403; a User target is deleted and nothing else.
   */
  method Remove(db: AccountTables, id: string) returns (r: Reply)
    requires db.Valid()
    modifies db`users
    ensures db.Valid()
    ensures UserById(old(db.users), id).None? ==> r.code == 404 && db.users == old(db.users)
    ensures UserById(old(db.users), id).Some? ==>
      var i := UserById(old(db.users), id).value;
      && (old(db.users)[i].role == Admin ==>
            r == Reply(403, Message("Nobody can destroy admin")) && db.users == old(db.users))
      && (old(db.users)[i].role != Admin && old(db.users)[i].role != User ==>
            r == Reply(403, Message("Only User can be deleted")) && db.users == old(db.users))
      && (old(db.users)[i].role == User ==>
            r.code == 200 && db.users == Tables.RemoveAt(old(db.users), i))
    ensures r.code == 200 <==> UserById(old(db.users), id).Some? && old(db.users)[UserById(old(db.users), id).value].role == User
  {
    var found := UserById(db.users, id);
    if found.None? {
      r := Reply(404, Message("User not found"));
      return;
    }
    var i := found.value;
    if db.users[i].role == Admin {
      r := Reply(403, Message("Nobody can destroy admin"));
      return;
    }
    if db.users[i].role != User {
      r := Reply(403, Message("Only User can be deleted"));
      return;
    }
    Tables.RemoveAtDistinct(db.users, IdOf, i);
    Tables.RemoveAtDistinct(db.users, EmailOf, i);
    db.users := Tables.RemoveAt(db.users, i);
    r := Reply(200, Message("User deleted successfully"));
  }
}
