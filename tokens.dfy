/**
 * How the tokens issued by the account handlers fare at the places that
 * check them: the role gate (literal access key), and `getNewAccessToken`
 * (refresh key from the environment, falling back to the literal), while
 * `login` always signs with the literals and `accessTokenGenereate` with the
 * environment's access key.
 */
module TokenFlow {
  import opened Wrappers
  import opened Crypto
  import opened Accounts
  import RoleAuth

  /** The header a client sends: any space-free scheme word, a space, the token. */
  function Bearer(scheme: string, token: string): Option<string> {
    Some(scheme + " " + token)
  }

  /**
   * A login access token, sent within its 15 minutes, is decided by the gate
   * on the role the user had at login alone.
   */
  lemma LoginAccessPassesGate(p: Primitives, u: UserRow, now: nat, at: nat, scheme: string, roles: seq<string>)
    requires Sound(p) && Compact(p) && ' ' !in scheme
    requires now <= at < now + AccessTtl
    ensures RoleAuth.Decide(p, Bearer(scheme, LoginTokens(p, u, now).0), roles, at)
      == if RoleName(u.role) in roles then RoleAuth.Admit(u.id, RoleName(u.role)) else RoleAuth.Refuse(403)
  {
    var t := LoginTokens(p, u, now).0;
    RoleAuth.BearerTokenOf(scheme, t);
  }

  /** A login access token is turned away by the gate once it has expired. */
  lemma LoginAccessExpires(p: Primitives, u: UserRow, now: nat, at: nat, scheme: string, roles: seq<string>)
    requires Sound(p) && Compact(p) && ' ' !in scheme
    requires at >= now + AccessTtl
    ensures RoleAuth.Decide(p, Bearer(scheme, LoginTokens(p, u, now).0), roles, at) == RoleAuth.Refuse(401)
  {
    RoleAuth.BearerTokenOf(scheme, LoginTokens(p, u, now).0);
  }

  /**
   * A login refresh token, presented within its 7 days while the row still
   * exists, is honoured exactly when `REFRESH_KEY` is unset or empty, since
   * login signs it with the literal and the refresh handler prefers the
   * variable; otherwise it answers 400.
   */
  lemma LoginRefreshAccepted(users: seq<UserRow>, cfg: Config, u: UserRow, now: nat, at: nat)
    requires Sound(cfg.prims)
    requires now <= at < now + RefreshTtl
    requires UserById(users, u.id).Some?
    ensures GetNewAccessToken(users, cfg, LoginTokens(cfg.prims, u, now).1, at).code
      == if OrLiteral(cfg.env.refreshKey, RefreshLiteral) == RefreshLiteral then 200 else 400
  {
    VerifiesIffSameKey(cfg.prims, LoginClaims(u), RefreshLiteral,
                       OrLiteral(cfg.env.refreshKey, RefreshLiteral), RefreshTtl, now, at);
  }

  /**
   * An access token refreshed at `now` and sent within 15 minutes passes the
   * gate exactly when `ACCESS_KEY` is unset or empty and the role of the row
   * as it stood at the refresh is allowed; with the variable set it answers 401.
   */
  lemma RefreshedAccessAtGate(users: seq<UserRow>, cfg: Config, refreshToken: string, now: nat, at: nat,
                              scheme: string, roles: seq<string>)
    requires Sound(cfg.prims) && Compact(cfg.prims) && ' ' !in scheme
    requires now <= at < now + AccessTtl
    requires GetNewAccessToken(users, cfg, refreshToken, now).code == 200
    ensures
      var claims := cfg.prims.verify(refreshToken, OrLiteral(cfg.env.refreshKey, RefreshLiteral), now).value;
      var u := users[UserById(users, claims.id).value];
      var reply := GetNewAccessToken(users, cfg, refreshToken, now);
      && reply.payload.AccessToken?
      && RoleAuth.Decide(cfg.prims, Bearer(scheme, reply.payload.token), roles, at)
         == if OrLiteral(cfg.env.accessKey, AccessLiteral) != AccessLiteral then RoleAuth.Refuse(401)
            else if RoleName(u.role) in roles then RoleAuth.Admit(u.id, RoleName(u.role))
            else RoleAuth.Refuse(403)
  {
    var claims := cfg.prims.verify(refreshToken, OrLiteral(cfg.env.refreshKey, RefreshLiteral), now).value;
    var u := users[UserById(users, claims.id).value];
    var t := AccessTokenGenerate(cfg, RefreshClaims(u), now);
    RoleAuth.BearerTokenOf(scheme, t);
    VerifiesIffSameKey(cfg.prims, RefreshClaims(u), OrLiteral(cfg.env.accessKey, AccessLiteral),
                       AccessLiteral, AccessTtl, now, at);
  }

  /**
   * The code mailed at registration is the one activation accepts at any
   * moment of the same 30-minute step, and a code depends on the clock only
   * through the step.
   */
  lemma CodeStableWithinStep(cfg: Config, email: string, now: nat, later: nat)
    requires TimeStep(now) == TimeStep(later)
    ensures CodeFor(cfg, email, now) == CodeFor(cfg, email, later)
  {
  }
}
