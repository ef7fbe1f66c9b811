/**
 * The /auth and /products route tables: which verb and path reach which
 * handler, through which middleware chain. Express's router is modelled with
 * its defaults: paths match case-insensitively on literal segments, a
 * `:name` segment matches any non-empty segment, one trailing slash is
 * ignored, and the first registered route that matches serves the request.
 */
module Routes {
  import opened Wrappers
  import Crypto
  import RoleAuth
  import Text
  import Paths

  datatype Verb = Get | Post | Put | Patch | Delete

  /** `authMiddleware` (its body is not part of this model) or `roleMiddleware(roles)`. */
  datatype Middleware = Authenticate | RoleGate(roles: seq<string>)

  datatype Handler =
    | Register | VerifyOtp | Login | GetNewAccessToken | PromoteToAdmin
    | FindAll | FindOne | Update | Remove
    | CreateProduct | GetAllProducts | GetProductById | UpdateProduct | DeleteProduct

  /** A registered route; `documentedBearer` says whether its API doc lists BearerAuth. */
  datatype Route = Route(verb: Verb, pattern: seq<Paths.Segment>, chain: seq<Middleware>, handler: Handler, documentedBearer: bool)

  const ById := [Paths.Param("id")]
  const PromoteWord := "promoteToAdmin"

  /** The routes of the /auth router, in registration order. */
  const UserRoutes: seq<Route> := [
    Route(Post, [Paths.Literal("register")], [], Register, false),
    Route(Post, [Paths.Literal("verify-otp")], [], VerifyOtp, false),
    Route(Post, [Paths.Literal("login")], [], Login, false),
    Route(Post, [Paths.Literal("get-access-token")], [], GetNewAccessToken, true),
    Route(Patch, [Paths.Literal(PromoteWord), Paths.Param("id")], [], PromoteToAdmin, true),
    Route(Get, [], [Authenticate, RoleGate(["Admin"])], FindAll, true),
    Route(Get, ById, [Authenticate, RoleGate(["Admin"])], FindOne, true),
    Route(Patch, ById, [Authenticate, RoleGate(["Admin", "SuperAdmin"])], Update, true),
    Route(Delete, ById, [Authenticate, RoleGate(["Admin"])], Remove, true)
  ]

  /** The routes of the /products router, in registration order. */
  const ProductRoutes: seq<Route> := [
    Route(Post, [], [], CreateProduct, true),
    Route(Get, [], [], GetAllProducts, false),
    Route(Get, ById, [], GetProductById, false),
    Route(Put, ById, [Authenticate, RoleGate(["Admin", "SuperAdmin"])], UpdateProduct, true),
    Route(Delete, ById, [Authenticate, RoleGate(["Admin"])], DeleteProduct, true)
  ]

  /**
   * The access policy each handler is meant to sit behind, stated per handler:
   * None for an open endpoint, Some(roles) for one behind authentication and
   * the role gate with that allow-list.
   */
  function Guard(h: Handler): Option<seq<string>> {
    match h
    case FindAll | FindOne | Remove | DeleteProduct => Some(["Admin"])
    case Update | UpdateProduct => Some(["Admin", "SuperAdmin"])
    case _ => None
  }

  /** The chain that enforces a policy: authentication first, then the gate. */
  function ChainFor(guard: Option<seq<string>>): seq<Middleware> {
    match guard
    case None => []
    case Some(roles) => [Authenticate, RoleGate(roles)]
  }

  predicate EnforcesGuard(r: Route) {
    r.chain == ChainFor(Guard(r.handler))
  }

  /** Every registered route enforces exactly its handler's policy. */
  lemma RoutesEnforceGuards()
    ensures forall i :: 0 <= i < |UserRoutes| ==> EnforcesGuard(UserRoutes[i])
    ensures forall i :: 0 <= i < |ProductRoutes| ==> EnforcesGuard(ProductRoutes[i])
  {
  }

  /** The routes that run with no middleware although their doc lists BearerAuth. */
  lemma UndocumentedOpenRoutes()
    ensures forall i :: 0 <= i < |UserRoutes| ==>
      (UserRoutes[i].documentedBearer && UserRoutes[i].chain == [] <==> UserRoutes[i].handler in {GetNewAccessToken, PromoteToAdmin})
    ensures forall i :: 0 <= i < |ProductRoutes| ==>
      (ProductRoutes[i].documentedBearer && ProductRoutes[i].chain == [] <==> ProductRoutes[i].handler == CreateProduct)
  {
  }

  // ---------------------------------------------------------------------------
  // Running a chain

  datatype Outcome = Handled | Stopped(code: nat)

  /**
   * Runs a chain left to right. `auth` is what `authMiddleware` does to this
   * request: None when it calls `next`, Some(code) when it answers itself.
   */
  function RunChain(chain: seq<Middleware>, auth: Option<nat>, p: Crypto.Primitives, header: Option<string>, now: nat): (o: Outcome)
    ensures o.Handled? <==> forall i :: 0 <= i < |chain| ==> Passes(chain[i], auth, p, header, now)
    ensures o.Stopped? ==> exists i :: 0 <= i < |chain| && StopsWith(chain[i], auth, p, header, now, o.code)
  {
    if chain == [] then Handled
    else
      match chain[0]
      case Authenticate =>
        if auth.Some? then Stopped(auth.value) else RunChain(chain[1..], auth, p, header, now)
      case RoleGate(roles) =>
        match RoleAuth.Decide(p, header, roles, now)
        case Refuse(code) => Stopped(code)
        case Admit(_, _) => RunChain(chain[1..], auth, p, header, now)
  }

  predicate Passes(m: Middleware, auth: Option<nat>, p: Crypto.Primitives, header: Option<string>, now: nat) {
    match m
    case Authenticate => auth.None?
    case RoleGate(roles) => RoleAuth.Decide(p, header, roles, now).Admit?
  }

  predicate StopsWith(m: Middleware, auth: Option<nat>, p: Crypto.Primitives, header: Option<string>, now: nat, code: nat) {
    match m
    case Authenticate => auth == Some(code)
    case RoleGate(roles) => RoleAuth.Decide(p, header, roles, now) == RoleAuth.Refuse(code)
  }

  /**
   * A gated handler runs only when authentication passed and the bearer
   * token verifies with a role in its allow-list; an open handler always runs.
   */
  lemma {:induction false} HandlerRunsIff(r: Route, auth: Option<nat>, p: Crypto.Primitives, header: Option<string>, now: nat)
    requires EnforcesGuard(r)
    ensures RunChain(r.chain, auth, p, header, now).Handled? <==>
      match Guard(r.handler)
      case None => true
      case Some(roles) =>
        && auth.None?
        && RoleAuth.BearerToken(header) != ""
        && p.verify(RoleAuth.BearerToken(header), RoleAuth.GateKey, now).Some?
        && p.verify(RoleAuth.BearerToken(header), RoleAuth.GateKey, now).value.role in roles
  {
    var o := RunChain(r.chain, auth, p, header, now);
    match Guard(r.handler)
    case None =>
    case Some(roles) =>
      assert r.chain == [Authenticate, RoleGate(roles)];
      assert o.Handled? <==> Passes(r.chain[0], auth, p, header, now) && Passes(r.chain[1], auth, p, header, now);
  }

  /** When authentication stops a gated request, the gate never decides it. */
  lemma AuthenticationFirst(r: Route, code: nat, p: Crypto.Primitives, header: Option<string>, now: nat)
    requires EnforcesGuard(r) && Guard(r.handler).Some?
    ensures RunChain(r.chain, Some(code), p, header, now) == Stopped(code)
  {
  }

  /** A route serves a request of its verb whose segments its pattern matches. */
  predicate Serves(r: Route, verb: Verb, ss: seq<string>) {
    r.verb == verb && Paths.SegmentsMatch(r.pattern, ss)
  }

  /** The position of the first registered route that serves the segments. */
  function Resolve(routes: seq<Route>, verb: Verb, ss: seq<string>): (k: Option<nat>)
    ensures k.None? <==> forall i :: 0 <= i < |routes| ==> !Serves(routes[i], verb, ss)
    ensures k.Some? ==> k.value < |routes| && Serves(routes[k.value], verb, ss)
    ensures k.Some? ==> forall j :: 0 <= j < k.value ==> !Serves(routes[j], verb, ss)
  {
    if routes == [] then None
    else if Serves(routes[0], verb, ss) then Some(0)
    else
      match Resolve(routes[1..], verb, ss)
      case None => None
      case Some(k) => Some(k + 1)
  }

  /** The route that handles a request: the first registered one whose verb and path match. */
  function Dispatch(routes: seq<Route>, verb: Verb, path: string): (k: Option<nat>)
    ensures k.None? <==> forall i :: 0 <= i < |routes| ==> !(routes[i].verb == verb && Paths.PathMatches(routes[i].pattern, path))
    ensures k.Some? ==> k.value < |routes| && routes[k.value].verb == verb && Paths.PathMatches(routes[k.value].pattern, path)
    ensures k.Some? ==> forall j :: 0 <= j < k.value ==> !(routes[j].verb == verb && Paths.PathMatches(routes[j].pattern, path))
  {
    if Paths.Rooted(path) then Resolve(routes, verb, Paths.Segments(path)) else None
  }

  /** The first serving route is found wherever it sits. */
  lemma {:induction false} ResolveAt(routes: seq<Route>, verb: Verb, ss: seq<string>, k: nat)
    requires k < |routes| && Serves(routes[k], verb, ss)
    requires forall j :: 0 <= j < k ==> !Serves(routes[j], verb, ss)
    ensures Resolve(routes, verb, ss) == Some(k)
  {
    if k > 0 {
      var rest := routes[1..];
      assert !Serves(routes[0], verb, ss);
      assert rest[k - 1] == routes[k];
      forall j | 0 <= j < k - 1 ensures !Serves(rest[j], verb, ss) {
        assert rest[j] == routes[j + 1];
      }
      ResolveAt(rest, verb, ss, k - 1);
    }
  }

  lemma PromoteWordHasNoSlash()
    ensures '/' !in PromoteWord
  {
    var w := PromoteWord;
    assert forall i | 0 <= i < |w| :: w[i] != '/';
  }

  /** `PATCH /promoteToAdmin/<id>` reaches promoteToAdmin, with nothing in front of it. */
  lemma PromoteIsReachable(id: string)
    requires id != "" && '/' !in id
    ensures Dispatch(UserRoutes, Patch, "/" + PromoteWord + "/" + id) == Some(4)
    ensures UserRoutes[4].handler == PromoteToAdmin && UserRoutes[4].chain == []
  {
    PromoteWordHasNoSlash();
    Paths.TwoSegments(PromoteWord, id);
    PromoteRouteServes(id);
    PromoteFirst(id);
  }

  lemma PromoteFirst(id: string)
    requires id != ""
    ensures Resolve(UserRoutes, Patch, [PromoteWord, id]) == Some(4)
  {
    PromoteRouteServes(id);
    assert forall j | 0 <= j < 4 :: UserRoutes[j].verb == Post;
    ResolveAt(UserRoutes, Patch, [PromoteWord, id], 4);
  }

  lemma PromoteRouteServes(id: string)
    requires id != ""
    ensures Serves(UserRoutes[4], Patch, [PromoteWord, id])
  {
    assert UserRoutes[4].pattern == [Paths.Literal(PromoteWord), Paths.Param("id")];
  }

  /** `GET /<id>` reaches findOne for every non-empty id. */
  lemma GetByIdIsFindOne(id: string)
    requires id != "" && '/' !in id
    ensures Dispatch(UserRoutes, Get, "/" + id) == Some(6)
  {
    Paths.OneSegment(id);
    assert forall j | 0 <= j < 5 :: UserRoutes[j].verb != Get;
    assert !Serves(UserRoutes[5], Get, [id]);
    ResolveAt(UserRoutes, Get, [id], 6);
  }

  /** `PATCH /<id>` reaches update for every non-empty id, "promoteToAdmin" included. */
  lemma PatchByIdIsUpdate(id: string)
    requires id != "" && '/' !in id
    ensures Dispatch(UserRoutes, Patch, "/" + id) == Some(7)
  {
    Paths.OneSegment(id);
    assert forall j | 0 <= j < 7 && j != 4 :: UserRoutes[j].verb != Patch;
    assert !Serves(UserRoutes[4], Patch, [id]);
    ResolveAt(UserRoutes, Patch, [id], 7);
  }

  /** `DELETE /<id>` reaches remove for every non-empty id. */
  lemma DeleteByIdIsRemove(id: string)
    requires id != "" && '/' !in id
    ensures Dispatch(UserRoutes, Delete, "/" + id) == Some(8)
  {
    Paths.OneSegment(id);
    assert forall j | 0 <= j < 8 :: UserRoutes[j].verb != Delete;
    ResolveAt(UserRoutes, Delete, [id], 8);
  }

  /** `GET /` reaches findAll, never findOne. */
  lemma GetRootIsFindAll()
    ensures Dispatch(UserRoutes, Get, "/") == Some(5)
  {
    Paths.RootHasNoSegments();
    assert Serves(UserRoutes[5], Get, []);
    ResolveAt(UserRoutes, Get, [], 5);
  }
}
