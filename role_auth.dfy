/**
 * The role gate placed in front of protected handlers: it takes the second
 * space-separated word of the Authorization header as the token, verifies it
 * with the fixed access key and checks the token's role against an allow-list.
 */
module RoleAuth {
  import opened Wrappers
  import opened Crypto
  import Text

  /** `req.header("Authorization")?.split(" ")[1]`, with "" standing for a missing part. */
  function BearerToken(header: Option<string>): (t: string)
    ensures ' ' !in t
    ensures header.None? ==> t == ""
    ensures header.Some? && ' ' !in header.value ==> t == ""
  {
    if header.None? then ""
    else
      var parts := Text.Split(header.value, ' ');
      if |parts| >= 2 then parts[1] else ""
  }

  /** The scheme word is not checked: any space-free first word followed by the token yields the token. */
  lemma {:induction false} BearerTokenOf(scheme: string, token: string)
    requires ' ' !in scheme && ' ' !in token
    ensures BearerToken(Some(scheme + " " + token)) == token
  {
    Text.SplitAfterHead(scheme, ' ', token);
    assert scheme + " " + token == scheme + [' '] + token;
    assert Text.Split(token, ' ') == [token];
  }

  /** The token is empty exactly when the header has no second word or its second word is empty. */
  lemma BearerTokenEmptyIff(h: string)
    ensures BearerToken(Some(h)) == "" <==> |Text.Split(h, ' ')| < 2 || Text.Split(h, ' ')[1] == ""
  {
  }

  /** `Bearer` alone, `Bearer ` and `Bearer  token` (two spaces) all give the empty token. */
  lemma {:induction false} NoTokenAfterScheme(scheme: string, rest: string)
    requires ' ' !in scheme && (rest == "" || rest[0] == ' ')
    ensures BearerToken(Some(scheme + " " + rest)) == ""
  {
    Text.SplitAfterHead(scheme, ' ', rest);
    assert scheme + " " + rest == scheme + [' '] + rest;
    if rest == "" {
      assert Text.Split(rest, ' ') == [""];
    } else {
      Text.SplitAfterHead("", ' ', rest[1..]);
      assert rest == "" + [' '] + rest[1..];
    }
  }

  /** The key the gate verifies with, written into the source. */
  const GateKey := AccessLiteral

  /** The gate's verdict: call the next handler with the caller recorded, or answer with a status. */
  datatype Decision = Admit(userId: string, userRole: string) | Refuse(code: nat)

  /**
   * No token (missing header, no second word, empty second word) answers 401;
   * a token that does not verify answers 401; a verified role outside the
   * allow-list answers 403; otherwise the caller is admitted with the token's
   * id and role. The store is not consulted.
   */
  function Decide(p: Primitives, header: Option<string>, roles: seq<string>, now: nat): (d: Decision)
    ensures d == Refuse(401) <==> BearerToken(header) == "" || p.verify(BearerToken(header), GateKey, now).None?
    ensures d == Refuse(403) <==>
      BearerToken(header) != "" && p.verify(BearerToken(header), GateKey, now).Some?
      && p.verify(BearerToken(header), GateKey, now).value.role !in roles
    ensures d.Admit? <==>
      BearerToken(header) != "" && p.verify(BearerToken(header), GateKey, now).Some?
      && p.verify(BearerToken(header), GateKey, now).value.role in roles
    ensures d.Admit? ==>
      var c := p.verify(BearerToken(header), GateKey, now).value;
      d.userId == c.id && d.userRole == c.role && d.userRole in roles
  {
    var token := BearerToken(header);
    if token == "" then Refuse(401)
    else
      match p.verify(token, GateKey, now)
      case None => Refuse(401)
      case Some(c) => if c.role in roles then Admit(c.id, c.role) else Refuse(403)
  }

  /** An empty allow-list refuses every request. */
  lemma EmptyAllowListRefuses(p: Primitives, header: Option<string>, now: nat)
    ensures Decide(p, header, [], now).Refuse?
  {
  }

  /** The request as the gate sees and changes it. */
  class Request {
    const authorization: Option<string>
    var userId: Option<string>
    var userRole: Option<string>
    /** The status of the response sent, if one was sent. */
    var status: Option<nat>
    /** How many times the next handler was called. */
    var nextCalls: nat

    constructor (authorization: Option<string>)
      ensures this.authorization == authorization
      ensures userId.None? && userRole.None? && status.None? && nextCalls == 0
    {
      this.authorization := authorization;
      userId, userRole, status, nextCalls := None, None, None, 0;
    }
  }

  /**
   * `roleMiddleware(roles)` applied to a request: an admitted caller has
   * `userId` and `userRole` set and `next` called once; a refused one gets a
   * status and nothing else changes.
   */
  method RoleMiddleware(p: Primitives, roles: seq<string>, req: Request, now: nat)
    modifies req
    ensures Decide(p, req.authorization, roles, now).Admit? ==>
      var d := Decide(p, req.authorization, roles, now);
      && req.userId == Some(d.userId) && req.userRole == Some(d.userRole)
      && req.nextCalls == old(req.nextCalls) + 1 && req.status == old(req.status)
    ensures Decide(p, req.authorization, roles, now).Refuse? ==>
      && req.status == Some(Decide(p, req.authorization, roles, now).code)
      && req.nextCalls == old(req.nextCalls)
      && req.userId == old(req.userId) && req.userRole == old(req.userRole)
  {
    var token := BearerToken(req.authorization);
    if token == "" {
      req.status := Some(401);
      return;
    }
    var data := p.verify(token, GateKey, now);
    if data.None? {
      req.status := Some(401);
      return;
    }
    if data.value.role in roles {
      req.userId := Some(data.value.id);
      req.userRole := Some(data.value.role);
      req.nextCalls := req.nextCalls + 1;
    } else {
      req.status := Some(403);
    }
  }
}
