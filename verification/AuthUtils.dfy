/**
 * The two token helpers shared by every API route: reading the caller's token out of
 * the `Authorization` header and verifying it (`decodeAuthToken`), and issuing a
 * token (`createAuthToken`).
 */
module AuthUtils {
  import opened Wrappers
  import opened Time
  import Text
  import Jwt

  /** The key used when the `JWT_SECRET` environment variable is unset or empty. */
  const FallbackSecret: string := "your-secret-key"

  /**
   * `process.env.JWT_SECRET || "your-secret-key"`: JavaScript's `||` treats the empty
   * string as false, so an empty setting falls back too. Signing and verifying both
   * use this key.
   */
  function SigningKey(jwtSecret: Option<string>): (key: string)
    ensures key != []
    ensures key == FallbackSecret <==> jwtSecret.None? || jwtSecret.value in {[], FallbackSecret}
    ensures jwtSecret.Some? && jwtSecret.value != [] ==> key == jwtSecret.value
  {
    match jwtSecret
    case Some(s) => if s != [] then s else FallbackSecret
    case None => FallbackSecret
  }

  /**
   * `req.headers.get("authorization")?.split(" ")[1]`, kept only when truthy: the
   * second space-separated word of the header value. The first word (the scheme) is
   * never looked at.
   */
  function BearerToken(authorization: Option<string>): (token: Option<string>)
    ensures token.Some? ==> token.value != [] && ' ' !in token.value
    ensures token.Some? ==> authorization.Some? && ' ' in authorization.value
  {
    match authorization
    case None => None
    case Some(h) =>
      var words := Text.Split(h, ' ');
      if |words| < 2 || words[1] == [] then None
      else
        assert ' ' in h by {
          if ' ' !in h {
            Text.SplitNoSeparator(h, ' ');
          }
        }
        Some(words[1])
  }

  /** What `decodeAuthToken` does: return `null`, return the verified claims, or throw. */
  datatype Decoded = NoToken | Verified(claims: Jwt.Claims) | Threw(error: Jwt.JwtError)

  /**
   * `decodeAuthToken(req)`: `null` when the header carries no token, otherwise whatever
   * `jwt.verify` yields under the signing key, a verification failure escaping as an
   * exception.
   */
  function DecodeAuthToken(authorization: Option<string>, jwtSecret: Option<string>, now: Instant)
    : (r: Decoded)
    ensures r.NoToken? <==> BearerToken(authorization).None?
    ensures r.Verified? ==> now < r.claims.exp
    ensures r.Verified? ==> Jwt.Verify(BearerToken(authorization).value, SigningKey(jwtSecret), now) == Ok(r.claims)
    ensures r.Threw? ==> Jwt.Verify(BearerToken(authorization).value, SigningKey(jwtSecret), now) == Err(r.error)
    ensures r.Verified? || r == Threw(Jwt.Expired)
            <==> BearerToken(authorization).Some?
                 && Jwt.SignedWith(BearerToken(authorization).value, SigningKey(jwtSecret))
  {
    match BearerToken(authorization)
    case None => NoToken
    case Some(token) =>
      match Jwt.Verify(token, SigningKey(jwtSecret), now)
      case Ok(claims) => Verified(claims)
      case Err(e) => Threw(e)
  }

  /**
   * `token` is a session token for `p` issued at `now`: verifying it under the signing key
   * at its issue time yields exactly `p` with a one-day lifetime.
   */
  predicate IssuedFor(token: string, p: Jwt.Payload, jwtSecret: Option<string>, now: Instant) {
    && token != [] && ' ' !in token
    && Jwt.Verify(token, SigningKey(jwtSecret), now) == Ok(Jwt.Claims(p, now, now + SecondsPerDay))
  }

  /** `createAuthToken(payload)`: signs `payload` with the signing key and a one-day lifetime. */
  function CreateAuthToken(p: Jwt.Payload, jwtSecret: Option<string>, now: Instant): (token: string)
    ensures IssuedFor(token, p, jwtSecret, now)
  {
    Jwt.SignThenVerify(p, SigningKey(jwtSecret), now, now);
    Jwt.Sign(p, SigningKey(jwtSecret), now)
  }

  /**
   * The token is the second word whatever the first one is: `"Token abc"` yields `"abc"`
   * just as `"Bearer abc"` does, and anything from a further space on is ignored.
   */
  lemma SchemeIsNotChecked(scheme: string, token: string, tail: string)
    requires ' ' !in scheme && ' ' !in token && token != []
    requires tail == [] || tail[0] == ' '
    ensures BearerToken(Some(scheme + " " + token + tail)) == Some(token)
  {
    var h := scheme + " " + token + tail;
    assert h == scheme + [' '] + (token + tail);
    Text.SplitAtFirst(scheme, ' ', token + tail);
    Text.FirstPiece(token, ' ', tail);
    var words := Text.Split(h, ' ');
    assert words[1] == Text.Split(token + tail, ' ')[0];
  }

  /** A missing header, a header without a space, and an empty second word all yield `null`. */
  lemma {:induction false} NoTokenCases(h: string, scheme: string, rest: string)
    requires ' ' !in h && ' ' !in scheme
    ensures BearerToken(None) == None
    ensures BearerToken(Some(h)) == None
    ensures BearerToken(Some(scheme + "  " + rest)) == None
  {
    Text.SplitNoSeparator(h, ' ');
    Text.SplitAtFirst(scheme, ' ', " " + rest);
    Text.SplitAtFirst([], ' ', rest);
    assert scheme + "  " + rest == scheme + [' '] + (" " + rest);
    assert " " + rest == [] + [' '] + rest;
  }

  /**
   * A token issued for `p` at `issued` and presented as `Bearer <token>` decodes to
   * `p`'s claims until one day after issue, and throws an expiry error from then on.
   */
  lemma DecodeIssued(token: string, p: Jwt.Payload, jwtSecret: Option<string>, issued: Instant, now: Instant)
    requires IssuedFor(token, p, jwtSecret, issued)
    ensures var d := DecodeAuthToken(Some("Bearer " + token), jwtSecret, now);
            if now < issued + SecondsPerDay
            then d == Verified(Jwt.Claims(p, issued, issued + SecondsPerDay))
            else d == Threw(Jwt.Expired)
  {
    BearerHeader(token);
    Jwt.VerifyAtAnotherTime(token, SigningKey(jwtSecret), issued, now);
  }

  /** The `Bearer <token>` header a client sends carries `token`. */
  lemma BearerHeader(token: string)
    requires token != [] && ' ' !in token
    ensures BearerToken(Some("Bearer " + token)) == Some(token)
  {
    SchemeIsNotChecked("Bearer", token, []);
    assert "Bearer " + token == "Bearer" + " " + token + [];
  }

  /**
   * Round trip of the two helpers: presenting `"Bearer " + createAuthToken(p)` decodes
   * to `p`'s claims under the same key until one day after issue, and throws an
   * expiry error from then on.
   */
  lemma CreateThenDecode(p: Jwt.Payload, jwtSecret: Option<string>, issued: Instant, now: Instant)
    ensures var d := DecodeAuthToken(Some("Bearer " + CreateAuthToken(p, jwtSecret, issued)), jwtSecret, now);
            if now < issued + SecondsPerDay
            then d == Verified(Jwt.Claims(p, issued, issued + SecondsPerDay))
            else d == Threw(Jwt.Expired)
  {
    DecodeIssued(CreateAuthToken(p, jwtSecret, issued), p, jwtSecret, issued, now);
  }
}
