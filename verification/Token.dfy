/** Access tokens: issue, validation and lifetime. */
module Token {
  import opened Prelude
  import opened Text
  import opened Library
  import opened Authz

  const SECOND: Time := 1_000_000_000
  const HOUR: Time := 3600 * SECOND
  const DEFAULT_ISSUER := "oficina-api"

  /** The user as the authentication side sees it. */
  datatype AuthUser = AuthUser(id: Uuid, name: string, email: string, password: Password, roles: Roles)

  /** The claims as they stand in a token; dates are NumericDate values in whole seconds (section 2 of RFC 7519). */
  datatype AuthClaims = AuthClaims(
    userId: string, email: string, roles: seq<string>, issuer: string, subject: string, issuedAt: int, expiresAt: int)

  /** The signing library: signing under a secret, and the parser that checks algorithm and signature. */
  datatype Jwt = Jwt(sign: (string, AuthClaims) -> Parsed<string>, parse: (string, string) -> Parsed<AuthClaims>)

  /** A signed token parses, under the same secret, to the claims that were signed, and is a single word. */
  ghost predicate JwtLawful(jwt: Jwt) {
    forall secret, claims :: jwt.sign(secret, claims).ok ==>
      && jwt.parse(secret, jwt.sign(secret, claims).value) == Parsed(claims, true)
      && IsWord(jwt.sign(secret, claims).value)
  }

  datatype TokenService = TokenService(secret: string, expiration: Time, issuer: string)

  datatype AccessToken = AccessToken(value: string, expiresAt: Time)

  datatype Claims = Claims(userId: Uuid, email: string, roles: seq<string>, exp: Time)

  /** A service is made for every secret but the empty one, and its tokens always live for some time: an hour when
      none, or none that is positive, is asked for. */
  function NewTokenService(secret: string, expiration: Time): (r: Result<TokenService>)
    ensures r.Ok? <==> secret != ""
    ensures r.Ok? ==> r.value.expiration > 0 && (expiration > 0 ==> r.value.expiration == expiration)
    ensures r.Ok? && expiration <= 0 ==> r.value.expiration == 3_600_000_000_000
    ensures r.Ok? ==> r.value.secret == secret && r.value.issuer == "oficina-api"
  {
    if secret == "" then Err(MissingSecret)
    else Ok(TokenService(secret, if expiration <= 0 then HOUR else expiration, DEFAULT_ISSUER))
  }

  /** jwt.NewNumericDate: the whole seconds of a time, rounded down, as Dafny's division by a positive number does. */
  function NumericDate(t: Time): int {
    t / SECOND
  }

  /** Signing alone can fail; the reported expiration is the full lifetime after the issue, not cut to the second. */
  function Generate(svc: TokenService, jwt: Jwt, lib: Lib, user: AuthUser, now: Time): (r: Result<AccessToken>)
    ensures r.Ok? ==> r.value.expiresAt == now + svc.expiration
    ensures r.Err? ==> r.error == SigningError
  {
    var expiresAt := now + svc.expiration;
    var signed := jwt.sign(svc.secret,
      AuthClaims(lib.uuidText(user.id), user.email, user.roles, svc.issuer, lib.uuidText(user.id),
                 NumericDate(now), NumericDate(expiresAt)));
    if signed.ok then Ok(AccessToken(signed.value, expiresAt)) else Err(SigningError)
  }

  /** A token is accepted exactly when its signature and form pass, the current time is before its expiration time
      (section 4.1.4 of RFC 7519) and its user can be read; then with its own claims. Only a token that passes but for
      the time is called expired. */
  function Validate(svc: TokenService, jwt: Jwt, lib: Lib, token: string, now: Time): (r: Result<Claims>)
    ensures var parsed := jwt.parse(svc.secret, token);
      var id := lib.parseUuid(parsed.value.userId);
      && (r.Ok? <==> parsed.ok && now < parsed.value.expiresAt * SECOND && id.ok)
      && (r.Ok? ==> r.value.userId == id.value && r.value.email == parsed.value.email
                    && r.value.roles == parsed.value.roles && r.value.exp == parsed.value.expiresAt * SECOND)
      && (r == Err(ExpiredToken) <==> parsed.ok && now >= parsed.value.expiresAt * SECOND)
      && (r.Err? && r.error != ExpiredToken ==> r.error == InvalidToken)
  {
    var parsed := jwt.parse(svc.secret, token);
    if !parsed.ok then Err(InvalidToken)
    else
      var exp := parsed.value.expiresAt * SECOND;
      if now >= exp then Err(ExpiredToken)
      else
        var id := lib.parseUuid(parsed.value.userId);
        if !id.ok then Err(InvalidToken)
        else Ok(Claims(id.value, parsed.value.email, parsed.value.roles, exp))
  }

  /** The moment from which a token issued at `issued` is refused. */
  function Expiry(svc: TokenService, issued: Time): Time {
    NumericDate(issued + svc.expiration) * SECOND
  }

  /** A token issued at `issued` is accepted, with the user's own claims, exactly at the times before its expiry,
      and from then on it is refused as expired. */
  lemma TokenLifetime(svc: TokenService, jwt: Jwt, lib: Lib, user: AuthUser, issued: Time, now: Time)
    requires Lawful(lib) && JwtLawful(jwt) && Generate(svc, jwt, lib, user, issued).Ok?
    ensures Validate(svc, jwt, lib, Generate(svc, jwt, lib, user, issued).value.value, now)
         == if now < Expiry(svc, issued) then Ok(Claims(user.id, user.email, user.roles, Expiry(svc, issued)))
            else Err(ExpiredToken)
  {
    assert lib.parseUuid(lib.uuidText(user.id)) == Parsed(user.id, true);
  }

  /** A token names its service as the issuer and its user both as the user and as the subject, with the user's own
      email and roles, and was issued in the second it says. */
  lemma IssuedClaims(svc: TokenService, jwt: Jwt, lib: Lib, user: AuthUser, issued: Time)
    requires JwtLawful(jwt) && Generate(svc, jwt, lib, user, issued).Ok?
    ensures var parsed := jwt.parse(svc.secret, Generate(svc, jwt, lib, user, issued).value.value);
      && parsed.ok
      && parsed.value.issuer == svc.issuer
      && parsed.value.subject == parsed.value.userId == lib.uuidText(user.id)
      && parsed.value.email == user.email && parsed.value.roles == user.roles
      && parsed.value.issuedAt * SECOND <= issued < (parsed.value.issuedAt + 1) * SECOND
  {
    assert issued == issued / SECOND * SECOND + issued % SECOND;
  }

  /** Rounding costs less than a second: the lifetime is more than the configured one less a second and never
      more than the configured one, and the reported expiration exceeds the real one by less than a second. */
  lemma LifetimeBounds(svc: TokenService, jwt: Jwt, lib: Lib, user: AuthUser, issued: Time)
    requires Generate(svc, jwt, lib, user, issued).Ok?
    ensures svc.expiration - SECOND < Expiry(svc, issued) - issued <= svc.expiration
    ensures 0 <= Generate(svc, jwt, lib, user, issued).value.expiresAt - Expiry(svc, issued) < SECOND
    ensures svc.expiration >= SECOND ==> Expiry(svc, issued) > issued
  {
    var t := issued + svc.expiration;
    assert t == t / SECOND * SECOND + t % SECOND;
  }

  /** A token can be refused at the very instant it is issued. It is accepted then exactly when the fraction of
      the second at that instant and the lifetime make up a full second; a lifetime of a second or more always does. */
  lemma AcceptedAtOnce(svc: TokenService, jwt: Jwt, lib: Lib, user: AuthUser, issued: Time)
    requires Lawful(lib) && JwtLawful(jwt) && svc.expiration > 0 && Generate(svc, jwt, lib, user, issued).Ok?
    ensures Validate(svc, jwt, lib, Generate(svc, jwt, lib, user, issued).value.value, issued).Ok?
       <==> issued % SECOND + svc.expiration >= SECOND
  {
    TokenLifetime(svc, jwt, lib, user, issued, issued);
    var t := issued + svc.expiration;
    var q, r := issued / SECOND, issued % SECOND;
    assert issued == q * SECOND + r;
    assert t == q * SECOND + (r + svc.expiration);
    assert t == t / SECOND * SECOND + t % SECOND;
    if r + svc.expiration >= SECOND {
      assert t >= (q + 1) * SECOND;
      assert t / SECOND >= q + 1;
    } else {
      assert t / SECOND == q;
    }
  }
}
