/** The request gate: which requests need a token, how the token is read from the header, and who gets through. */
module Gate {
  import opened Prelude
  import opened Text
  import opened Library
  import opened Token

  // ---- Path normalisation ----

  /** A leading slash is added when it is missing; then one trailing slash is dropped, unless it is all there is. */
  function Normal(path: string): string {
    if path == "" then "/"
    else
      var rooted := if HasPrefix(path, "/") then path else "/" + path;
      if |rooted| > 1 && HasSuffix(rooted, "/") then rooted[..|rooted| - 1] else rooted
  }

  method NormalizePath(path: string) returns (p: string)
    ensures p == Normal(path)
  {
    p := path;
    if p == "" {
      return "/";
    }
    if !HasPrefix(p, "/") {
      p := "/" + p;
    }
    if |p| > 1 && HasSuffix(p, "/") {
      p := p[..|p| - 1];
    }
  }

  /** What the normal form is: a missing leading slash is added, and then one trailing slash, if it is not all there
      is, is dropped. */
  lemma NormalExactly(path: string)
    ensures path == "" || path[0] != '/' ==> Normal(path) == Normal("/" + path)
    ensures path != "" && path[0] == '/' ==>
      if |path| > 1 && path[|path| - 1] == '/' then Normal(path) == path[..|path| - 1] else Normal(path) == path
  {
    if path != "" {
      assert path[|path| - 1..] == [path[|path| - 1]];
    }
  }

  lemma NormalIsRooted(path: string)
    ensures Normal(path) != "" && Normal(path)[0] == '/'
  {
  }

  /** Normalising twice is not normalising once: the second time changes the path exactly when it is longer than "/"
      and still ends in a slash. */
  lemma NormalAgain(path: string)
    ensures Normal(Normal(path)) != Normal(path) <==> |Normal(path)| > 1 && HasSuffix(Normal(path), "/")
  {
    NormalIsRooted(path);
  }

  function TrailingSlashes(path: string): nat {
    if HasSuffix(path, "/") then 1 + TrailingSlashes(path[..|path| - 1]) else 0
  }

  function NormalTimes(path: string, n: nat): string
    decreases n
  {
    if n == 0 then path else NormalTimes(Normal(path), n - 1)
  }

  lemma {:induction false} NormalTimesFixed(path: string, n: nat)
    requires Normal(path) == path
    ensures NormalTimes(path, n) == path
  {
    if n > 0 {
      NormalTimesFixed(path, n - 1);
    }
  }

  lemma NormalDropsOne(path: string)
    requires HasPrefix(path, "/") && path != "/"
    ensures TrailingSlashes(Normal(path)) == if TrailingSlashes(path) == 0 then 0 else TrailingSlashes(path) - 1
    ensures TrailingSlashes(path) == 0 ==> Normal(path) == path
  {
  }

  /** Normalising as many times as a rooted path has trailing slashes reaches a path that is normal for good. */
  lemma {:induction false} NormalTimesSettles(path: string, n: nat)
    requires HasPrefix(path, "/") && n >= TrailingSlashes(path)
    ensures Normal(NormalTimes(path, n)) == NormalTimes(path, n)
    decreases n
  {
    if Normal(path) == path {
      NormalTimesFixed(path, n);
    } else {
      NormalDropsOne(path);
      NormalIsRooted(path);
      NormalTimesSettles(Normal(path), n - 1);
    }
  }

  lemma {:induction false} RootingKeepsTrail(path: string)
    requires path != "" && path[0] != '/'
    ensures TrailingSlashes("/" + path) == TrailingSlashes(path)
  {
    var rooted := "/" + path;
    assert rooted[|rooted| - 1..] == path[|path| - 1..];
    if HasSuffix(path, "/") {
      assert path[|path| - 1..][0] == '/';
      assert rooted[..|rooted| - 1] == "/" + path[..|path| - 1];
      RootingKeepsTrail(path[..|path| - 1]);
    }
  }

  /** The same for every path, at the cost of one more time when the leading slash is all that is missing. */
  lemma AnyPathSettles(path: string, n: nat)
    requires n >= 1 && n >= TrailingSlashes(path)
    ensures Normal(NormalTimes(path, n)) == NormalTimes(path, n)
  {
    if HasPrefix(path, "/") {
      NormalTimesSettles(path, n);
    } else if path == "" {
      NormalTimesFixed("/", n - 1);
    } else {
      RootingKeepsTrail(path);
      var rooted := "/" + path;
      assert Normal(rooted) == Normal(path);
      NormalTimesSettles(rooted, n);
      assert NormalTimes(path, n) == NormalTimes(Normal(path), n - 1) == NormalTimes(rooted, n);
    }
  }

  /** A trailing slash makes no difference exactly when the path is "/" or does not end in a slash already. */
  lemma TrailingSlashIgnored(path: string)
    ensures Normal(path + "/") == Normal(path) <==> path == "/" || !HasSuffix(path, "/")
  {
    var rooted := if HasPrefix(path, "/") then path else "/" + path;
    assert path != "" ==> HasPrefix(path + "/", "/") == HasPrefix(path, "/");
    if path != "" {
      assert (rooted + "/")[..|rooted|] == rooted;
      assert HasSuffix(rooted + "/", "/");
      assert Normal(path + "/") == rooted by {
        assert "/" + (path + "/") == ("/" + path) + "/";
      }
      assert HasSuffix(rooted, "/") == HasSuffix(path, "/") by {
        assert rooted[|rooted| - 1] == path[|path| - 1];
        assert rooted[|rooted| - 1..] == [rooted[|rooted| - 1]] && path[|path| - 1..] == [path[|path| - 1]];
      }
    }
  }

  // ---- Route decision ----

  datatype PublicRoute = PublicRoute(verb: string, path: string)

  /** PublicRoute.matches, on normalised routes and requests. */
  predicate RouteMatches(route: PublicRoute, verb: string, path: string) {
    if route.path != path then false
    else if TrimSpace(route.verb) == "" then true
    else route.verb == verb
  }

  /** The route is for every method, or for this one in any letter case; and for this path up to normalisation. */
  predicate Covers(route: PublicRoute, verb: string, path: string) {
    Normal(route.path) == Normal(path) && (AllSpace(route.verb) || ToUpper(route.verb) == ToUpper(verb))
  }

  function NormalRoute(route: PublicRoute): PublicRoute {
    PublicRoute(ToUpper(route.verb), Normal(route.path))
  }

  lemma RouteMatchesIsCovers(route: PublicRoute, verb: string, path: string)
    ensures RouteMatches(NormalRoute(route), ToUpper(verb), Normal(path)) <==> Covers(route, verb, path)
  {
    TrimSpaceBlank(ToUpper(route.verb));
    ToUpperBlank(route.verb);
  }

  /** The decision, as a configuration of prefixes and public routes promises it. */
  predicate Protected(prefixes: seq<string>, routes: seq<PublicRoute>, verb: string, path: string) {
    && !EqualFold(verb, "OPTIONS")
    && (forall route :: route in routes ==> !Covers(route, verb, path))
    && (prefixes == [] || exists prefix :: prefix in prefixes && HasPrefix(Normal(path), Normal(prefix)))
  }

  /** The decision as it is taken, on normalised lists and a normalised request. */
  predicate Decision(protectedPrefixes: seq<string>, publicRoutes: seq<PublicRoute>, verb: string, path: string) {
    && (forall i :: 0 <= i < |publicRoutes| ==> !RouteMatches(publicRoutes[i], verb, path))
    && (exists i :: 0 <= i < |protectedPrefixes| && HasPrefix(path, protectedPrefixes[i]))
  }

  lemma RoutesDecide(routes: seq<PublicRoute>, verb: string, path: string)
    ensures (forall i :: 0 <= i < |routes| ==> !RouteMatches(NormalRoutes(routes)[i], ToUpper(verb), Normal(path)))
       <==> forall route :: route in routes ==> !Covers(route, verb, path)
  {
    forall i | 0 <= i < |routes|
      ensures RouteMatches(NormalRoutes(routes)[i], ToUpper(verb), Normal(path)) <==> Covers(routes[i], verb, path)
    {
      RouteMatchesIsCovers(routes[i], verb, path);
    }
    forall i | 0 <= i < |routes| ensures routes[i] in routes {
    }
  }

  lemma PrefixesDecide(prefixes: seq<string>, path: string)
    ensures var configured := Configured(prefixes);
      (exists i :: 0 <= i < |configured| && HasPrefix(Normal(path), NormalAll(configured)[i]))
        <==> (prefixes == [] || exists prefix :: prefix in prefixes && HasPrefix(Normal(path), Normal(prefix)))
  {
    var configured := Configured(prefixes);
    NormalIsRooted(path);
    if prefixes == [] {
      assert HasPrefix(Normal(path), NormalAll(configured)[0]);
    } else if exists prefix :: prefix in prefixes && HasPrefix(Normal(path), Normal(prefix)) {
      var prefix :| prefix in prefixes && HasPrefix(Normal(path), Normal(prefix));
      var i :| 0 <= i < |prefixes| && prefixes[i] == prefix;
      assert HasPrefix(Normal(path), NormalAll(configured)[i]);
    }
  }

  /** Deciding on the normalised lists is deciding as promised. */
  lemma DecisionIsProtected(prefixes: seq<string>, routes: seq<PublicRoute>, verb: string, path: string)
    requires !EqualFold(verb, "OPTIONS")
    ensures Decision(NormalAll(Configured(prefixes)), NormalRoutes(routes), ToUpper(verb), Normal(path))
       <==> Protected(prefixes, routes, verb, path)
  {
    RoutesDecide(routes, verb, path);
    PrefixesDecide(prefixes, path);
  }

  /** The decision knows neither order nor repetition of prefixes and routes. */
  lemma DecisionIgnoresOrder(prefixes: seq<string>, prefixes': seq<string>, routes: seq<PublicRoute>,
                             routes': seq<PublicRoute>, verb: string, path: string)
    requires (forall p :: p in prefixes <==> p in prefixes') && (forall r :: r in routes <==> r in routes')
    ensures Protected(prefixes, routes, verb, path) == Protected(prefixes', routes', verb, path)
  {
    assert prefixes == [] <==> prefixes' == [] by {
      if prefixes != [] { assert prefixes[0] in prefixes'; }
      if prefixes' != [] { assert prefixes'[0] in prefixes; }
    }
  }

  /** The empty list of prefixes stands for "/". */
  function Configured(prefixes: seq<string>): seq<string> {
    if prefixes == [] then ["/"] else prefixes
  }

  /** More prefixes protect more, more public routes protect less. */
  lemma DecisionMonotone(prefixes: seq<string>, prefixes': seq<string>, routes: seq<PublicRoute>,
                         routes': seq<PublicRoute>, verb: string, path: string)
    requires (forall p :: p in Configured(prefixes) ==> p in Configured(prefixes'))
    requires (forall r :: r in routes' ==> r in routes)
    ensures Protected(prefixes, routes, verb, path) ==> Protected(prefixes', routes', verb, path)
  {
    if Protected(prefixes, routes, verb, path) {
      NormalIsRooted(path);
      assert Normal("/") == "/";
      if prefixes == [] {
        assert "/" in Configured(prefixes);
      } else {
        var prefix :| prefix in prefixes && HasPrefix(Normal(path), Normal(prefix));
        assert prefix in Configured(prefixes');
      }
    }
  }

  /** Under the prefix "/", or "", or no prefix at all, everything is protected but OPTIONS and the public routes. */
  lemma RootProtectsAll(prefixes: seq<string>, routes: seq<PublicRoute>, verb: string, path: string)
    requires prefixes == [] || "/" in prefixes || "" in prefixes
    ensures Protected(prefixes, routes, verb, path)
       <==> !EqualFold(verb, "OPTIONS") && forall route :: route in routes ==> !Covers(route, verb, path)
  {
    NormalIsRooted(path);
    assert HasPrefix(Normal(path), "/");
    assert Normal("/") == "/" && Normal("") == "/";
  }

  /** A trailing slash makes no difference to the decision, whatever the configuration and the method, exactly for
      the path "/" and for paths that do not end in a slash already. */
  lemma TrailingSlashSameDecision(path: string)
    ensures (forall prefixes, routes, verb ::
               Protected(prefixes, routes, verb, path + "/") == Protected(prefixes, routes, verb, path))
       <==> path == "/" || !HasSuffix(path, "/")
  {
    TrailingSlashIgnored(path);
    if Normal(path + "/") != Normal(path) {
      PublicRouteDecides(path, path);
      PublicRouteDecides(path, path + "/");
    }
  }

  /** With one public route for every method and no prefix, exactly the requests for another path are protected. */
  lemma PublicRouteDecides(routePath: string, path: string)
    ensures Protected([], [PublicRoute("", routePath)], "GET", path) <==> Normal(routePath) != Normal(path)
  {
    var route := PublicRoute("", routePath);
    assert route in [route];
    assert !EqualFold("GET", "OPTIONS");
  }

  /** The methods that are never protected: "OPTIONS" in any letter case, where the long s counts as an s. */
  lemma OptionsExact(verb: string)
    ensures EqualFold(verb, "OPTIONS") <==>
      && |verb| == 7 && verb[0] in "Oo" && verb[1] in "Pp" && verb[2] in "Tt" && verb[3] in "Ii" && verb[4] in "Oo"
      && verb[5] in "Nn" && verb[6] in "Ss\U{017F}"
  {
    var name := "OPTIONS";
    if EqualFold(verb, name) {
      assert Fold(verb[0]) == Fold(name[0]) == 'o' && Fold(verb[1]) == Fold(name[1]) == 'p';
      assert Fold(verb[2]) == Fold(name[2]) == 't' && Fold(verb[3]) == Fold(name[3]) == 'i';
      assert Fold(verb[4]) == Fold(name[4]) == 'o' && Fold(verb[5]) == Fold(name[5]) == 'n';
      assert Fold(verb[6]) == Fold(name[6]) == 's';
    }
  }

  lemma PrefixExactly(s: string, prefix: string)
    ensures HasPrefix(s, prefix) <==> exists rest :: s == prefix + rest
  {
    if HasPrefix(s, prefix) {
      assert s == prefix + s[|prefix|..];
    }
  }

  /** A public route covers the requests for its normal path whose method, as far as the route names one, is the
      same in any letter case. */
  lemma CoversExactly(route: PublicRoute, verb: string, path: string)
    requires Ascii(route.verb) && Ascii(verb)
    ensures Covers(route, verb, path) <==>
      && Normal(route.path) == Normal(path)
      && (AllSpace(route.verb)
          || (|route.verb| == |verb| && forall i :: 0 <= i < |verb| ==> SameLetter(route.verb[i], verb[i])))
  {
    ToUpperLetters(route.verb, verb);
  }

  /** The request's normal path continues that of prefix `i`. */
  ghost predicate Continues(prefixes: seq<string>, path: string, i: int, rest: string) {
    0 <= i < |prefixes| && Normal(path) == Normal(prefixes[i]) + rest
  }

  lemma PrefixesExactly(prefixes: seq<string>, path: string)
    ensures (exists prefix :: prefix in prefixes && HasPrefix(Normal(path), Normal(prefix)))
       <==> exists i, rest :: Continues(prefixes, path, i, rest)
  {
    if prefix :| prefix in prefixes && HasPrefix(Normal(path), Normal(prefix)) {
      PrefixExactly(Normal(path), Normal(prefix));
      var i :| 0 <= i < |prefixes| && prefixes[i] == prefix;
      var rest :| Normal(path) == Normal(prefix) + rest;
      assert Continues(prefixes, path, i, rest);
    }
    if i, rest :| Continues(prefixes, path, i, rest) {
      PrefixExactly(Normal(path), Normal(prefixes[i]));
      assert prefixes[i] in prefixes;
    }
  }

  /** The decision in full, position by position: the request is protected exactly when its method is not OPTIONS, no
      public route has its normal path with no method or with its method, and its normal path continues the normal
      path of some prefix, if there is any prefix. */
  lemma ProtectedExactly(prefixes: seq<string>, routes: seq<PublicRoute>, verb: string, path: string)
    ensures Protected(prefixes, routes, verb, path) <==>
      && !EqualFold(verb, "OPTIONS")
      && (forall i :: 0 <= i < |routes| && Normal(routes[i].path) == Normal(path) ==>
            !AllSpace(routes[i].verb) && ToUpper(routes[i].verb) != ToUpper(verb))
      && (prefixes == [] || exists i, rest :: Continues(prefixes, path, i, rest))
  {
    PrefixesExactly(prefixes, path);
    forall i | 0 <= i < |routes| ensures routes[i] in routes {
    }
    assert (forall route :: route in routes ==> !Covers(route, verb, path))
      <==> (forall i :: 0 <= i < |routes| ==> !Covers(routes[i], verb, path));
  }

  // ---- The bearer header ----

  function ExtractBearerToken(header: string): (r: Result<string>)
    ensures r.Err? ==> r.error == InvalidToken
  {
    var parts := Fields(header);
    if |parts| != 2 then Err(InvalidToken)
    else if !EqualFold(parts[0], "Bearer") then Err(InvalidToken)
    else Ok(parts[1])
  }

  /** The word "Bearer" in any letter case. */
  predicate IsScheme(scheme: string) {
    && |scheme| == 6
    && scheme[0] in "Bb" && scheme[1] in "Ee" && scheme[2] in "Aa" && scheme[3] in "Rr" && scheme[4] in "Ee"
    && scheme[5] in "Rr"
  }

  /** White space, the scheme in any letter case (section 11.1 of RFC 9110), white space, the token (section 2.1 of
      RFC 6750), white space. */
  ghost predicate IsBearer(header: string, token: string) {
    exists scheme :: IsScheme(scheme) && TwoWords(header, scheme, token)
  }

  lemma SchemeExact(scheme: string)
    ensures EqualFold(scheme, "Bearer") <==> IsScheme(scheme)
  {
    var name := "Bearer";
    if EqualFold(scheme, name) {
      assert Fold(scheme[0]) == Fold(name[0]) == 'b' && Fold(scheme[1]) == Fold(name[1]) == 'e';
      assert Fold(scheme[2]) == Fold(name[2]) == 'a' && Fold(scheme[3]) == Fold(name[3]) == 'r';
      assert Fold(scheme[4]) == Fold(name[4]) == 'e' && Fold(scheme[5]) == Fold(name[5]) == 'r';
    }
  }

  lemma SchemeIsWord(scheme: string)
    requires IsScheme(scheme)
    ensures IsWord(scheme)
  {
  }

  /** The parser answers the token exactly for headers of that form; a token is never empty or broken by white space. */
  lemma BearerExact(header: string, token: string)
    ensures ExtractBearerToken(header) == Ok(token) <==> IsWord(token) && IsBearer(header, token)
  {
    if ExtractBearerToken(header) == Ok(token) {
      var scheme := Fields(header)[0];
      SchemeExact(scheme);
      assert Fields(header) == [scheme, token];
      FieldsTwo(header, scheme, token);
    }
    if IsWord(token) && IsBearer(header, token) {
      var scheme :| IsScheme(scheme) && TwoWords(header, scheme, token);
      SchemeExact(scheme);
      SchemeIsWord(scheme);
      FieldsTwo(header, scheme, token);
    }
  }

  lemma PrintedIsBearer(token: string)
    ensures IsBearer("Bearer " + token, token)
  {
    var header, scheme := "Bearer " + token, "Bearer";
    assert header == "" + scheme + (" " + token + "");
    assert Spaced(header, "", scheme, " ", token, "");
    assert IsScheme(scheme) && TwoWords(header, scheme, token);
  }

  /** Reading undoes printing. */
  lemma BearerPrinted(token: string)
    requires IsWord(token)
    ensures ExtractBearerToken("Bearer " + token) == Ok(token)
  {
    PrintedIsBearer(token);
    BearerExact("Bearer " + token, token);
  }

  /** The header counts as missing exactly when it has no field at all. */
  lemma MissingExact(header: string)
    ensures TrimSpace(header) == "" <==> Fields(header) == []
  {
    TrimSpaceBlank(header);
    FieldsOfBlank(header);
  }

  // ---- The middleware ----

  datatype Local = ClaimsLocal(claims: Claims) | UserLocal(id: Uuid)

  const CLAIMS_KEY := "auth.claims"
  const USER_KEY := "auth.user_id"

  class RequestContext {
    const verb: string
    const path: string
    const authorization: string
    var locals: map<string, Local>

    constructor (verb: string, path: string, authorization: string)
      ensures this.verb == verb && this.path == path && this.authorization == authorization && locals == map[]
    {
      this.verb, this.path, this.authorization := verb, path, authorization;
      locals := map[];
    }
  }

  /** What becomes of a request: it goes on, with the claims it was let through with if it needed any, or is refused. */
  datatype Verdict = Next(claims: Option<Claims>) | Refused(error: Error)

  function Judge(prefixes: seq<string>, routes: seq<PublicRoute>, svc: TokenService, jwt: Jwt, lib: Lib,
                    verb: string, path: string, header: string, now: Time): Verdict {
    if !Protected(prefixes, routes, verb, path) then Next(None)
    else if TrimSpace(header) == "" then Refused(MissingToken)
    else match ExtractBearerToken(header)
      case Err(_) => Refused(InvalidToken)
      case Ok(token) =>
        match Validate(svc, jwt, lib, token, now)
        case Err(e) => Refused(e)
        case Ok(claims) => Next(Some(claims))
  }

  class Middleware {
    const tokens: TokenService
    const protectedPrefixes: seq<string>
    const publicRoutes: seq<PublicRoute>
    ghost const prefixes: seq<string>
    ghost const routes: seq<PublicRoute>

    /** The stored lists are the configured ones, normalised. */
    ghost predicate Valid() {
      && protectedPrefixes == NormalAll(Configured(prefixes))
      && publicRoutes == NormalRoutes(routes)
    }

    constructor (tokens: TokenService, prefixes: seq<string>, routes: seq<PublicRoute>)
      ensures Valid() && this.tokens == tokens && this.prefixes == prefixes && this.routes == routes
    {
      this.tokens, this.prefixes, this.routes := tokens, prefixes, routes;
      var normalPrefixes := NormalizePrefixes(if |prefixes| == 0 then ["/"] else prefixes);
      var normalRoutes := NormalizePublicRoutes(routes);
      protectedPrefixes, publicRoutes := normalPrefixes, normalRoutes;
    }

    lemma ShouldProtectIsProtected(verb: string, path: string)
      ensures Valid() ==>
        ((!EqualFold(verb, "OPTIONS") && Decision(protectedPrefixes, publicRoutes, ToUpper(verb), Normal(path)))
          <==> Protected(prefixes, routes, verb, path))
    {
      if !EqualFold(verb, "OPTIONS") {
        DecisionIsProtected(prefixes, routes, verb, path);
      }
    }

    method ShouldProtect(verb: string, path: string) returns (protect: bool)
      ensures protect ==
        (!EqualFold(verb, "OPTIONS") && Decision(protectedPrefixes, publicRoutes, ToUpper(verb), Normal(path)))
      ensures Valid() ==> protect == Protected(prefixes, routes, verb, path)
    {
      ShouldProtectIsProtected(verb, path);
      if EqualFold(verb, "OPTIONS") {
        return false;
      }
      var requestPath := NormalizePath(path);
      var requestVerb := ToUpper(verb);
      for i := 0 to |publicRoutes|
        invariant forall j :: 0 <= j < i ==> !RouteMatches(publicRoutes[j], requestVerb, requestPath)
      {
        if RouteMatches(publicRoutes[i], requestVerb, requestPath) {
          return false;
        }
      }
      for i := 0 to |protectedPrefixes|
        invariant forall j :: 0 <= j < i ==> !HasPrefix(requestPath, protectedPrefixes[j])
      {
        if HasPrefix(requestPath, protectedPrefixes[i]) {
          return true;
        }
      }
      return false;
    }

    method Handle(ctx: RequestContext, jwt: Jwt, lib: Lib, now: Time) returns (verdict: Verdict)
      requires Valid()
      modifies ctx
      ensures verdict == Judge(prefixes, routes, tokens, jwt, lib, ctx.verb, ctx.path, ctx.authorization, now)
      ensures ctx.locals ==
        if verdict.Refused? || verdict.claims.None? then old(ctx.locals)
        else old(ctx.locals)["auth.claims" := ClaimsLocal(verdict.claims.value)]
                            ["auth.user_id" := UserLocal(verdict.claims.value.userId)]
    {
      var protect := ShouldProtect(ctx.verb, ctx.path);
      if !protect {
        return Next(None);
      }
      var raw := ctx.authorization;
      if TrimSpace(raw) == "" {
        return Refused(MissingToken);
      }
      var token := ExtractBearerToken(raw);
      if token.Err? {
        return Refused(InvalidToken);
      }
      var claims := Validate(tokens, jwt, lib, token.value, now);
      if claims.Err? {
        return Refused(claims.error);
      }
      ctx.locals := ctx.locals[CLAIMS_KEY := ClaimsLocal(claims.value)];
      ctx.locals := ctx.locals[USER_KEY := UserLocal(claims.value.userId)];
      return Next(Some(claims.value));
    }
  }

  function NormalAll(prefixes: seq<string>): seq<string> {
    seq(|prefixes|, i requires 0 <= i < |prefixes| => Normal(prefixes[i]))
  }

  function NormalRoutes(routes: seq<PublicRoute>): seq<PublicRoute> {
    seq(|routes|, i requires 0 <= i < |routes| => NormalRoute(routes[i]))
  }

  method NormalizePrefixes(prefixes: seq<string>) returns (out: seq<string>)
    ensures out == NormalAll(prefixes)
  {
    out := [];
    for i := 0 to |prefixes|
      invariant |out| == i && forall j :: 0 <= j < i ==> out[j] == Normal(prefixes[j])
    {
      var p := NormalizePath(prefixes[i]);
      out := out + [p];
    }
  }

  method NormalizePublicRoutes(routes: seq<PublicRoute>) returns (out: seq<PublicRoute>)
    ensures out == NormalRoutes(routes)
  {
    out := [];
    for i := 0 to |routes|
      invariant |out| == i && forall j :: 0 <= j < i ==> out[j] == NormalRoute(routes[j])
    {
      var p := NormalizePath(routes[i].path);
      out := out + [PublicRoute(ToUpper(routes[i].verb), p)];
    }
  }

  /** What becomes of every request. One that is not protected goes on, whatever its header; a protected one without
      a header is told that the token is missing, one whose header is no bearer token that it is not valid, and one
      with a bearer token what validation says of that token. */
  lemma VerdictExactly(prefixes: seq<string>, routes: seq<PublicRoute>, svc: TokenService, jwt: Jwt, lib: Lib,
                       verb: string, path: string, header: string, now: Time)
    ensures var verdict := Judge(prefixes, routes, svc, jwt, lib, verb, path, header, now);
      if !Protected(prefixes, routes, verb, path) then verdict == Next(None)
      else if AllSpace(header) then verdict == Refused(MissingToken)
      else if forall token :: !(IsWord(token) && IsBearer(header, token)) then verdict == Refused(InvalidToken)
      else
        forall token :: IsWord(token) && IsBearer(header, token) ==>
          verdict == match Validate(svc, jwt, lib, token, now)
                     case Ok(claims) => Next(Some(claims))
                     case Err(error) => Refused(error)
  {
    TrimSpaceBlank(header);
    var extracted := ExtractBearerToken(header);
    if extracted.Ok? {
      BearerExact(header, extracted.value);
    }
    forall token | IsWord(token) && IsBearer(header, token) ensures extracted == Ok(token) {
      BearerExact(header, token);
    }
  }

  /** A protected request whose token was not signed with the service's secret is refused. */
  lemma ForgedTokenRefused(prefixes: seq<string>, routes: seq<PublicRoute>, svc: TokenService, jwt: Jwt, lib: Lib,
                           verb: string, path: string, header: string, now: Time, token: string)
    requires Protected(prefixes, routes, verb, path)
    requires IsWord(token) && IsBearer(header, token) && !jwt.parse(svc.secret, token).ok
    ensures Judge(prefixes, routes, svc, jwt, lib, verb, path, header, now) == Refused(InvalidToken)
  {
    VerdictExactly(prefixes, routes, svc, jwt, lib, verb, path, header, now);
    BearerExact(header, token);
    MissingExact(header);
    TrimSpaceBlank(header);
  }

  /** A header carries one bearer token at most. */
  lemma OneBearer(header: string, t: string, u: string)
    requires IsWord(t) && IsBearer(header, t) && IsWord(u) && IsBearer(header, u)
    ensures t == u
  {
    BearerExact(header, t);
    BearerExact(header, u);
  }

  /** A protected request goes through exactly with a bearer token that validates, and with that token's claims. */
  lemma GateExact(prefixes: seq<string>, routes: seq<PublicRoute>, svc: TokenService, jwt: Jwt, lib: Lib,
                  verb: string, path: string, header: string, now: Time, claims: Claims)
    requires Protected(prefixes, routes, verb, path)
    ensures Judge(prefixes, routes, svc, jwt, lib, verb, path, header, now) == Next(Some(claims))
       <==> exists token :: IsWord(token) && IsBearer(header, token) && Validate(svc, jwt, lib, token, now) == Ok(claims)
  {
    var extracted := ExtractBearerToken(header);
    if extracted.Ok? {
      BearerExact(header, extracted.value);
      MissingExact(header);
    }
    forall token | IsWord(token) && IsBearer(header, token) ensures extracted == Ok(token) {
      BearerExact(header, token);
    }
  }

  /** A token issued for a user opens the gate, as that user, until it expires, and is refused as expired after. */
  lemma IssuedTokenOpensGate(prefixes: seq<string>, routes: seq<PublicRoute>, svc: TokenService, jwt: Jwt, lib: Lib,
                             user: AuthUser, issued: Time, verb: string, path: string, now: Time)
    requires Lawful(lib) && JwtLawful(jwt) && Generate(svc, jwt, lib, user, issued).Ok?
    requires Protected(prefixes, routes, verb, path)
    ensures Judge(prefixes, routes, svc, jwt, lib, verb, path,
                     "Bearer " + Generate(svc, jwt, lib, user, issued).value.value, now)
         == if now < Expiry(svc, issued) then Next(Some(Claims(user.id, user.email, user.roles, Expiry(svc, issued))))
            else Refused(ExpiredToken)
  {
    var token := Generate(svc, jwt, lib, user, issued).value.value;
    var header := "Bearer " + token;
    assert IsWord(token);
    BearerPrinted(token);
    assert Fields(header) != [];
    MissingExact(header);
    TokenLifetime(svc, jwt, lib, user, issued, now);
  }
}
