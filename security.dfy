/** Password hashing and the JWT helpers of the service. The hashing scheme and the
    token signature are foreign code, so they enter the model as function values
    handed to the service; only the logic around them is modelled. */
module Security {
  import opened Outcomes

  /** Default lifetime of an access token, in minutes. */
  const AccessTokenExpireMinutes := 60
  const SecondsPerMinute := 60

  /** The password hashing scheme: `hash(password, salt)` with a salt drawn afresh on
      every call, and `verify(password, storedHash)`. */
  datatype PasswordHasher = PasswordHasher(hash: (string, string) -> string, verify: (string, string) -> bool)

  /** A scheme is sound when every hash it makes verifies against its own password. */
  ghost predicate HasherSound(h: PasswordHasher) {
    forall password, salt :: h.verify(password, h.hash(password, salt))
  }

  /** The claims of a token: `sub` and `exp` (a timestamp in whole seconds); either may be
      absent from a token the service did not make. */
  datatype Claims = Claims(sub: Option<string>, exp: Option<int>)

  /** Signing with the service secret, and verifying a token at time `now`: `decode`
      yields no claims for a bad signature, a malformed token or an expired one. */
  datatype TokenCodec = TokenCodec(encode: Claims -> string, decode: (string, int) -> Option<Claims>)

  /** The expiry rule of the token library: a token is refused once `exp` lies before `now`. */
  predicate Expired(c: Claims, now: int) {
    c.exp.Some? && c.exp.value < now
  }

  /** A codec is sound when a token it signed decodes to its own claims until they expire. */
  ghost predicate CodecSound(codec: TokenCodec) {
    forall c, now :: codec.decode(codec.encode(c), now) == if Expired(c, now) then None else Some(c)
  }

  /** `create_access_token`: a token for `subjectEmail` issued at `now` (seconds). */
  function CreateAccessToken(codec: TokenCodec, subjectEmail: string, now: int,
                             expiresMinutes: int := AccessTokenExpireMinutes): (token: string)
    ensures CodecSound(codec) && expiresMinutes >= 0 ==>
              codec.decode(token, now) == Some(Claims(Some(subjectEmail), Some(now + expiresMinutes * SecondsPerMinute)))
  {
    codec.encode(Claims(Some(subjectEmail), Some(now + expiresMinutes * SecondsPerMinute)))
  }

  /** `decode_token`: the subject email of a token, or 401. */
  function DecodeToken(codec: TokenCodec, token: string, now: int): (r: Result<string>)
    ensures r.Err? ==> r.error.status == Unauthorized
    ensures r.Ok? ==> r.value != "" && codec.decode(token, now).Some? && codec.decode(token, now).value.sub == Some(r.value)
    ensures codec.decode(token, now).None? ==> r == Err(HttpError(Unauthorized, "Invalid or expired token"))
    ensures codec.decode(token, now).Some? && codec.decode(token, now).value.sub in {None, Some("")} ==>
              r == Err(HttpError(Unauthorized, "Invalid token"))
    ensures codec.decode(token, now).Some? && codec.decode(token, now).value.sub.Some? && codec.decode(token, now).value.sub.value != "" ==>
              r == Ok(codec.decode(token, now).value.sub.value)
  {
    match codec.decode(token, now)
    case None => Err(HttpError(Unauthorized, "Invalid or expired token"))
    case Some(claims) =>
      if claims.sub.None? || claims.sub.value == "" then Err(HttpError(Unauthorized, "Invalid token"))
      else Ok(claims.sub.value)
  }

  /** A token made by `CreateAccessToken` carries `sub` = the email and `exp` = issue time
      plus the lifetime, and reads back as long as it has not expired. */
  lemma AccessTokenClaims(codec: TokenCodec, email: string, issuedAt: int, expiresMinutes: int, now: int)
    requires CodecSound(codec)
    ensures var exp := issuedAt + expiresMinutes * SecondsPerMinute;
            codec.decode(CreateAccessToken(codec, email, issuedAt, expiresMinutes), now)
              == if now <= exp then Some(Claims(Some(email), Some(exp))) else None
  {
  }

  /** Round trip: decoding a token the service made yields its subject before expiry,
      and 401 after it or when the subject is empty. */
  lemma TokenRoundTrip(codec: TokenCodec, email: string, issuedAt: int, expiresMinutes: int, now: int)
    requires CodecSound(codec)
    ensures DecodeToken(codec, CreateAccessToken(codec, email, issuedAt, expiresMinutes), now)
              == if now > issuedAt + expiresMinutes * SecondsPerMinute then Err(HttpError(Unauthorized, "Invalid or expired token"))
                 else if email == "" then Err(HttpError(Unauthorized, "Invalid token"))
                 else Ok(email)
  {
  }
}
