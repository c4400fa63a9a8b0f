/**
  The claims reader of `TokenService`: each accessor parses the token
  afresh, starts from a default value and overwrites it only when the
  parse and the read succeed; only `ParseException` is caught.
 */
module Claims {
  import opened JavaLang

  /** A claim read through a typed accessor of the token library that throws
      `ParseException` when the claim has the wrong type (`Malformed`) and
      returns null when the claim is missing (`Absent`). */
  datatype Claim<T> = Absent | Malformed | Present(value: T)

  /** The `realm_access` object; `roles` is the text its `roles` entry
      prints as (`toString`), or null when that entry is missing. */
  datatype RealmAccess = RealmAccess(roles: Option<string>)

  /** A parsed claim set. The nullable fields are what the library's
      accessors return (null when the claim is missing or of the wrong
      type); `exp` is the expiration instant. */
  datatype ClaimSet = ClaimSet(
    exp: Option<int>,
    iss: JString,
    sub: JString,
    jti: JString,
    aud: Option<seq<string>>,
    realmAccess: Claim<RealmAccess>,
    groups: Claim<seq<string>>)

  /** `JWTParser.parse(token).getJWTClaimsSet()`: `None` stands for the
      `ParseException` either step throws on a malformed token. */
  type Parser = string -> Option<ClaimSet>

  /** `T v = initial; try { claims = parse(…); v = read(claims); }
      catch (ParseException e) { … } return v;` */
  function TryClaims<T>(parsed: Option<ClaimSet>, initial: T, read: ClaimSet -> Outcome<T>): Outcome<T>
  {
    match parsed
    case None => Returned(initial)
    case Some(claims) => Catch(read(claims), {ParseException}, initial)
  }

  /** `isTokenExpired`: `now` is the wall-clock instant of the call. */
  function IsTokenExpired(parse: Parser, token: string, now: int): (r: Outcome<bool>)
    ensures parse(token).None? ==> r == Returned(false)
    ensures r.Threw? <==> parse(token).Some? && parse(token).value.exp.None?
    ensures r.Threw? ==> r.exception == NullPointerException
    ensures r == Returned(true) <==>
      parse(token).Some? && parse(token).value.exp.Some? && now > parse(token).value.exp.value
  {
    TryClaims(parse(token), false, (claims: ClaimSet) => DateAfter(now, claims.exp))
  }

  /** `getTokenExpirydate`: null when the token does not parse. */
  function GetTokenExpiryDate(parse: Parser, token: string): (r: Option<int>)
    ensures parse(token).None? ==> r == None
    ensures parse(token).Some? ==> r == parse(token).value.exp
  {
    match parse(token)
    case None => None
    case Some(claims) => claims.exp
  }

  /** `getUserId`: the subject, "" when the token does not parse. */
  function GetUserId(parse: Parser, token: string): (r: JString)
    ensures parse(token).None? ==> r == Some("")
    ensures parse(token).Some? ==> r == parse(token).value.sub
  {
    match parse(token)
    case None => Some("")
    case Some(claims) => claims.sub
  }

  /** `getJTI`: the token identifier, "" when the token does not parse. */
  function GetJti(parse: Parser, token: string): (r: JString)
    ensures parse(token).None? ==> r == Some("")
    ensures parse(token).Some? ==> r == parse(token).value.jti
  {
    match parse(token)
    case None => Some("")
    case Some(claims) => claims.jti
  }

  /** `getAudience`: the audience list, empty when the token does not parse. */
  function GetAudience(parse: Parser, token: string): (r: Option<seq<string>>)
    ensures parse(token).None? ==> r == Some([])
    ensures parse(token).Some? ==> r == parse(token).value.aud
  {
    match parse(token)
    case None => Some([])
    case Some(claims) => claims.aud
  }

  /** A token that is exactly at its expiration instant is not expired. */
  lemma NotExpiredAtExpiry(parse: Parser, token: string, now: int)
    requires parse(token).Some? && parse(token).value.exp == Some(now)
    ensures IsTokenExpired(parse, token, now) == Returned(false)
  {
  }

  /** Once expired, a token stays expired at every later instant. */
  lemma ExpiryIsMonotone(parse: Parser, token: string, now: int, later: int)
    requires now <= later
    requires IsTokenExpired(parse, token, now) == Returned(true)
    ensures IsTokenExpired(parse, token, later) == Returned(true)
  {
  }

  /** The expiry verdict agrees with the expiry date: expired exactly when
      the date is known and passed; the call throws exactly when the token
      parses but has no date. */
  lemma ExpiredAgreesWithExpiryDate(parse: Parser, token: string, now: int)
    ensures IsTokenExpired(parse, token, now) == Returned(true) <==>
      GetTokenExpiryDate(parse, token).Some? && now > GetTokenExpiryDate(parse, token).value
    ensures IsTokenExpired(parse, token, now).Threw? <==>
      parse(token).Some? && GetTokenExpiryDate(parse, token).None?
  {
  }
}
