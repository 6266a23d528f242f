/**
 * The signing and verification oracle behind `jsonwebtoken`'s `sign` and `verify`
 * (HS256, compact serialization: header, payload and signature segments joined by
 * dots, as in section 7.1 of RFC 7515). Segments use the reversible encoding of
 * `Codec` in place of base64url JSON, and the signature is a keyed digest in place
 * of HMAC-SHA256: only the round trip and the expiry rule are modelled, not the
 * cryptographic strength.
 */
module Jwt {
  import opened Wrappers
  import opened Time
  import Text
  import Codec

  /** The claims the application puts into a token. */
  datatype Payload = Payload(userId: nat, email: string)

  /** A verified token's content: the payload plus the `iat` and `exp` claims `sign` adds. */
  datatype Claims = Claims(payload: Payload, iat: Instant, exp: Instant)

  /** The failures `verify` throws: `jwt malformed`, `invalid signature`, `jwt expired`. */
  datatype JwtError = Malformed | BadSignature | Expired

  const Separator: char := '.'

  const Algorithm: string := "HS256"

  const HeaderSegment: string := Codec.EncodeNats(Codec.CodePoints(Algorithm))

  function EncodeClaims(c: Claims): (r: string)
    ensures Codec.IsSegment(r)
  {
    Codec.EncodeNats([c.payload.userId, c.iat, c.exp] + Codec.CodePoints(c.payload.email))
  }

  function DecodeClaims(s: string): Option<Claims> {
    match Codec.DecodeNats(s)
    case None => None
    case Some(ns) =>
      if |ns| < 3 then None
      else
        match Codec.FromCodePoints(ns[3..])
        case None => None
        case Some(email) => Some(Claims(Payload(ns[0], email), ns[1], ns[2]))
  }

  lemma DecodeClaimsInverse(c: Claims)
    ensures DecodeClaims(EncodeClaims(c)) == Some(c)
  {
    var cps := Codec.CodePoints(c.payload.email);
    var ns := [c.payload.userId, c.iat, c.exp] + cps;
    Codec.DecodeNatsInverse(ns);
    assert ns[3..] == cps;
    Codec.FromCodePointsInverse(c.payload.email);
  }

  /** The signature segment of `input` under `secret`. */
  function Mac(secret: string, input: string): (r: string)
    ensures Codec.IsSegment(r)
  {
    Codec.EncodeNats([Codec.Digest(secret + [Separator] + input)])
  }

  lemma SegmentHasNoSeparator(s: string)
    requires Codec.IsSegment(s)
    ensures Separator !in s && ' ' !in s
  {
  }

  function Compact(header: string, body: string, signature: string): (r: string)
    ensures r == header + [Separator] + body + [Separator] + signature
  {
    var parts := [header, body, signature];
    assert parts[1..] == [body, signature] && parts[1..][1..] == [signature];
    assert Text.Join(parts[1..], Separator) == body + [Separator] + signature;
    Text.Join(parts, Separator)
  }

  lemma CompactHasNoSpace(header: string, body: string, signature: string)
    requires Codec.IsSegment(header) && Codec.IsSegment(body) && Codec.IsSegment(signature)
    ensures ' ' !in Compact(header, body, signature)
  {
    SegmentHasNoSeparator(header);
    SegmentHasNoSeparator(body);
    SegmentHasNoSeparator(signature);
  }

  /**
   * `jwt.sign(payload, secret, { expiresIn: "1d" })` at time `now`: the token carries
   * `payload` with `iat = now` and `exp = now + 1 day`. A token never contains a space,
   * so it survives being sent as the second word of an `Authorization` header.
   */
  function Sign(p: Payload, secret: string, now: Instant): (token: string)
    ensures ' ' !in token
  {
    var header := HeaderSegment;
    var body := EncodeClaims(Claims(p, now, now + SecondsPerDay));
    var signature := Mac(secret, header + [Separator] + body);
    CompactHasNoSpace(header, body, signature);
    Compact(header, body, signature)
  }

  /** `token` has three segments, the standard header and a decodable claims segment. */
  predicate WellShaped(token: string) {
    var parts := Text.Split(token, Separator);
    |parts| == 3 && parts[0] == HeaderSegment && DecodeClaims(parts[1]).Some?
  }

  /** The three segments of `token` are well formed and the last one signs the first two. */
  predicate SignedWith(token: string, secret: string) {
    var parts := Text.Split(token, Separator);
    |parts| == 3 && parts[0] == HeaderSegment && DecodeClaims(parts[1]).Some?
    && parts[2] == Mac(secret, parts[0] + [Separator] + parts[1])
  }

  /**
   * `jwt.verify(token, secret)` at time `now`: the checks run in `jsonwebtoken`'s order,
   * structure first, then the signature, then `exp`; a token is accepted strictly
   * before its `exp` second.
   */
  function Verify(token: string, secret: string, now: Instant): (r: Result<Claims, JwtError>)
    ensures r.Ok? ==> SignedWith(token, secret) && now < r.value.exp
    ensures r.Ok? || r == Err(Expired) <==> SignedWith(token, secret)
    ensures r.Ok? ==> Some(r.value) == DecodeClaims(Text.Split(token, Separator)[1])
    ensures r == Err(Malformed) <==> !WellShaped(token)
    ensures r == Err(Expired) ==> DecodeClaims(Text.Split(token, Separator)[1]).value.exp <= now
  {
    var parts := Text.Split(token, Separator);
    if |parts| != 3 || parts[0] != HeaderSegment then Err(Malformed)
    else
      match DecodeClaims(parts[1])
      case None => Err(Malformed)
      case Some(claims) =>
        if parts[2] != Mac(secret, parts[0] + [Separator] + parts[1]) then Err(BadSignature)
        else if now >= claims.exp then Err(Expired)
        else Ok(claims)
  }

  lemma SplitCompact(header: string, body: string, signature: string)
    requires Codec.IsSegment(header) && Codec.IsSegment(body) && Codec.IsSegment(signature)
    ensures Text.Split(Compact(header, body, signature), Separator) == [header, body, signature]
  {
    SegmentHasNoSeparator(header);
    SegmentHasNoSeparator(body);
    SegmentHasNoSeparator(signature);
    Text.SplitJoin([header, body, signature], Separator);
  }

  /**
   * The oracle's round trip: a token signed at `iat` verifies under the same secret to
   * exactly the signed payload with `exp = iat + 1 day` while `now < iat + 1 day`,
   * and fails as expired from then on.
   */
  lemma SignThenVerify(p: Payload, secret: string, iat: Instant, now: Instant)
    ensures Verify(Sign(p, secret, iat), secret, now)
         == if now < iat + SecondsPerDay then Ok(Claims(p, iat, iat + SecondsPerDay)) else Err(Expired)
  {
    var c := Claims(p, iat, iat + SecondsPerDay);
    var body := EncodeClaims(c);
    SplitCompact(HeaderSegment, body, Mac(secret, HeaderSegment + [Separator] + body));
    DecodeClaimsInverse(c);
  }

  /**
   * Whether a token verifies depends on the time only through `exp`: a token accepted
   * at some moment is accepted with the same claims at every moment before its `exp`
   * and rejected as expired at every moment after.
   */
  lemma VerifyAtAnotherTime(token: string, secret: string, checkedAt: Instant, now: Instant)
    requires Verify(token, secret, checkedAt).Ok?
    ensures Verify(token, secret, now)
         == if now < Verify(token, secret, checkedAt).value.exp then Verify(token, secret, checkedAt) else Err(Expired)
  {
  }
}
