/**
 * The cryptographic libraries the service calls (password hashing, time-based
 * one-time codes, signed bearer tokens), kept abstract: each is a function
 * value, and `Sound` states the equations the service relies on.
 */
module Crypto {
  import opened Wrappers

  /** The claim set a signed token carries: `{id, role}` or `{id, email, role}`. */
  datatype Claims = Claims(id: string, email: Option<string>, role: string)

  datatype Primitives = Primitives(
    /** bcrypt digest of a plaintext under a random salt. */
    hash: (string, string) -> string,
    /** bcrypt comparison of a plaintext with a stored digest. */
    compare: (string, string) -> bool,
    /** The one-time code for a secret in a time step (RFC 6238, 6 digits). */
    code: (string, int) -> string,
    /** A token over claims, signed with a key, issued at a time, valid for a number of seconds (RFC 7519). */
    sign: (Claims, string, nat, nat) -> string,
    /** The claims of a token whose signature checks under the key and which has not expired. */
    verify: (string, string, nat) -> Option<Claims>)

  /** The library equations: a digest matches its plaintext; a token verifies under its own key until it expires, and never under another key. */
  ghost predicate Sound(p: Primitives) {
    && (forall pw, salt :: p.compare(pw, p.hash(pw, salt)))
    && (forall c, k, ttl, iat, now ::
          p.verify(p.sign(c, k, ttl, iat), k, now) == if now < iat + ttl then Some(c) else None)
    && (forall c, k, k', ttl, iat, now ::
          k' != k ==> p.verify(p.sign(c, k, ttl, iat), k', now) == None)
  }

  /**
   * Signed tokens use the compact serialization of section 7.1 of RFC 7515:
   * base64url parts joined by dots, so never empty and never holding a space.
   */
  ghost predicate Compact(p: Primitives) {
    forall c, k, ttl, iat :: p.sign(c, k, ttl, iat) != "" && ' ' !in p.sign(c, k, ttl, iat)
  }

  /** `expiresIn: "15m"` */
  const AccessTtl: nat := 15 * 60
  /** `expiresIn: "7d"` */
  const RefreshTtl: nat := 7 * 24 * 60 * 60
  /** `totp.options = { step: 1800, digits: 6 }` */
  const CodeStep: nat := 1800
  const CodeDigits: nat := 6

  /** The time step a clock reading (seconds since the epoch) falls in. */
  function TimeStep(now: nat): int {
    now / CodeStep
  }

  /** `process.env.X || literal`: an unset or empty variable falls back to the literal. */
  function OrLiteral(variable: Option<string>, literal: string): (k: string)
    ensures k == literal || (variable.Some? && k == variable.value != "")
    ensures variable.Some? && variable.value != "" ==> k == variable.value
  {
    if variable.Some? && variable.value != "" then variable.value else literal
  }

  /** The process environment the handlers read. */
  datatype Env = Env(accessKey: Option<string>, refreshKey: Option<string>, secretKey: Option<string>)

  /** The literal keys written into the source. */
  const AccessLiteral := "access_secret"
  const RefreshLiteral := "refresh_secret"

  /** `${TOTP_KEY}${email}`: an unset variable prints as "undefined". */
  function CodeSecret(env: Env, email: string): (s: string)
    ensures env.secretKey.None? ==> s == "undefined" + email
    ensures env.secretKey.Some? ==> s == env.secretKey.value + email
  {
    (if env.secretKey.Some? then env.secretKey.value else "undefined") + email
  }

  /** A token verifies under the key it was signed with exactly while it has not expired. */
  lemma SignedVerifies(p: Primitives, c: Claims, k: string, ttl: nat, iat: nat, now: nat)
    requires Sound(p)
    ensures p.verify(p.sign(c, k, ttl, iat), k, now).Some? <==> now < iat + ttl
    ensures now < iat + ttl ==> p.verify(p.sign(c, k, ttl, iat), k, now) == Some(c)
  {
  }

  /** Whether a token verifies under a key depends on the key matching the signing key. */
  lemma VerifiesIffSameKey(p: Primitives, c: Claims, k: string, k': string, ttl: nat, iat: nat, now: nat)
    requires Sound(p) && now < iat + ttl
    ensures p.verify(p.sign(c, k, ttl, iat), k', now).Some? <==> k' == k
  {
    if k' != k {
      assert p.verify(p.sign(c, k, ttl, iat), k', now) == None;
    }
  }
}
