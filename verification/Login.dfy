/** Login: the second reader of the users table, and its agreement with what the user service has stored. */
module Login {
  import opened Prelude
  import opened Library
  import opened StrUtil
  import opened Authz
  import opened UserDomain
  import opened Table
  import opened UserStore
  import opened UseCases
  import opened Serial
  import opened Interleaving
  import opened Token
  import Deletion

  /** The user of an item, or an error when the identifier or the password hash cannot be read. */
  function ToUserView(lib: Lib, item: Item): Result<AuthUser> {
    var id := lib.parseUuid(item.id);
    if !id.ok then Err(InvalidUserItem)
    else
      var password := lib.fromHash(item.password);
      if !password.ok then Err(InvalidUserItem)
      else Ok(AuthUser(id.value, item.name, item.email, password.value, NewRolesUnchecked(item.roles)))
  }

  ghost function GetByDocument(lib: Lib, items: Items, document: string, up: bool, pick: string)
    : Result<Option<AuthUser>>
  {
    if !up then Err(ClientError)
    else match QueryOne(items, ByDocument, document, pick)
      case None => Ok(None)
      case Some(item) =>
        match ToUserView(lib, item)
        case Err(e) => Err(e)
        case Ok(user) => Ok(Some(user))
  }

  datatype AuthOutput = AuthOutput(token: AccessToken, user: AuthUser)

  /** A token for the user, with the user. */
  function Issue(svc: TokenService, jwt: Jwt, lib: Lib, user: AuthUser, now: Time): Result<AuthOutput> {
    match Generate(svc, jwt, lib, user, now)
    case Err(e) => Err(e)
    case Ok(token) => Ok(AuthOutput(token, user))
  }

  ghost function Authenticate(svc: TokenService, jwt: Jwt, lib: Lib, items: Items, document: Document, password: string,
                              up: bool, pick: string, now: Time): Result<AuthOutput> {
    match GetByDocument(lib, items, DigitsOf(document.value), up, pick)
    case Err(e) => Err(e)
    case Ok(None) => Err(InvalidCredentials)
    case Ok(Some(user)) =>
      if lib.matches(user.password, password) then Issue(svc, jwt, lib, user, now) else Err(InvalidCredentials)
  }

  method AuthenticateUser(table: UserTable, svc: TokenService, jwt: Jwt, lib: Lib, document: Document, password: string,
                          up: bool, now: Time) returns (r: Result<AuthOutput>, ghost pick: string)
    requires table.Valid()
    ensures r == Authenticate(svc, jwt, lib, table.items, document, password, up, pick, now)
    ensures !up ==> r == Err(ClientError)
    ensures up && !HasDocument(table.items, DigitsOf(document.value)) ==> r == Err(InvalidCredentials)
  {
    pick := "";
    var digits := OnlyNumbers(document.value);
    if !up {
      return Err(ClientError), pick;
    }
    var item;
    item, pick := table.Query(ByDocument, digits);
    if item.None? {
      return Err(InvalidCredentials), pick;
    }
    var view := ToUserView(lib, item.value);
    if view.Err? {
      return Err(view.error), pick;
    }
    if !lib.matches(view.value.password, password) {
      return Err(InvalidCredentials), pick;
    }
    return Issue(svc, jwt, lib, view.value, now), pick;
  }

  // ---- Agreement with the store ----

  /** The authentication side's view of a stored user. */
  function StoredUser(lib: Lib, m: Item): AuthUser {
    AuthUser(lib.parseUuid(m.id).value, m.name, m.email, Password(m.password), m.roles)
  }

  /** The stored user `id` has the digits of the document, and the password is theirs. */
  ghost predicate Credentials(lib: Lib, items: Items, id: string, document: Document, password: string) {
    id in items && items[id].document == DigitsOf(document.value) && lib.matches(Password(items[id].password), password)
  }

  /** An item is readable for login exactly when its identifier and its hash are; its own data is what is read. */
  lemma ToUserViewExactly(lib: Lib, m: Item)
    ensures var r := ToUserView(lib, m);
      var id, password := lib.parseUuid(m.id), lib.fromHash(m.password);
      && (r.Ok? <==> id.ok && password.ok)
      && (r.Ok? ==> r.value.id == id.value && r.value.name == m.name && r.value.email == m.email
                    && r.value.password == password.value && r.value.roles == m.roles)
      && (r.Err? ==> r.error == InvalidUserItem)
  {
  }

  lemma ToUserViewOfWellFormed(lib: Lib, m: Item)
    requires WellFormedItem(lib, m)
    ensures ToUserView(lib, m) == Ok(StoredUser(lib, m)) && lib.uuidText(StoredUser(lib, m).id) == m.id
  {
  }

  /** When one user at most has a document, the query answers that user's item, whatever the database picks. */
  lemma OnlyAnswer(items: Items, id: string, pick: string)
    requires Unique(items) && id in items
    ensures QueryOne(items, ByDocument, items[id].document, pick) == Some(items[id])
  {
  }

  /** When a user with the digits of the document is stored, that user's password alone decides. */
  lemma LoginOfStored(svc: TokenService, jwt: Jwt, lib: Lib, items: Items, id: string, document: Document,
                      password: string, pick: string, now: Time)
    requires Lawful(lib) && StoreInvariant(lib, items) && id in items && items[id].document == DigitsOf(document.value)
    ensures Authenticate(svc, jwt, lib, items, document, password, true, pick, now)
         == if lib.matches(Password(items[id].password), password) then
              Issue(svc, jwt, lib, StoredUser(lib, items[id]), now)
            else Err(InvalidCredentials)
    ensures lib.uuidText(StoredUser(lib, items[id]).id) == id
  {
    OnlyAnswer(items, id, pick);
    ToUserViewOfWellFormed(lib, items[id]);
  }

  lemma LoginOfNobody(svc: TokenService, jwt: Jwt, lib: Lib, items: Items, document: Document, password: string,
                      pick: string, now: Time)
    requires !HasDocument(items, DigitsOf(document.value))
    ensures Authenticate(svc, jwt, lib, items, document, password, true, pick, now) == Err(InvalidCredentials)
  {
  }

  /** What login answers on any table, in terms of the item that the query answers: a failed query, no item and an
      unreadable item each have their own answer, a wrong password that of no item, and signing decides the rest. */
  lemma LoginCases(svc: TokenService, jwt: Jwt, lib: Lib, items: Items, document: Document, password: string, up: bool,
                   pick: string, now: Time)
    ensures var r := Authenticate(svc, jwt, lib, items, document, password, up, pick, now);
      var found := QueryOne(items, ByDocument, DigitsOf(document.value), pick);
      if !up then r == Err(ClientError)
      else if found.None? then r == Err(InvalidCredentials)
      else
        var id, hash := lib.parseUuid(found.value.id), lib.fromHash(found.value.password);
        if !id.ok || !hash.ok then r == Err(InvalidUserItem)
        else if !lib.matches(hash.value, password) then r == Err(InvalidCredentials)
        else r == Err(SigningError) || (r.Ok? && r.value.user.id == id.value && r.value.user.email == found.value.email)
  {
    if up && QueryOne(items, ByDocument, DigitsOf(document.value), pick).Some? {
      ToUserViewExactly(lib, QueryOne(items, ByDocument, DigitsOf(document.value), pick).value);
    }
  }

  /** Login succeeds, signing permitting, exactly for the credentials of a stored user; there is one such user at
      most, so it matters not which item the database picks, and the token is issued for that user. */
  lemma LoginAgrees(svc: TokenService, jwt: Jwt, lib: Lib, items: Items, document: Document, password: string,
                    pick: string, now: Time)
    requires Lawful(lib) && StoreInvariant(lib, items)
    ensures var r := Authenticate(svc, jwt, lib, items, document, password, true, pick, now);
      && (forall id :: Credentials(lib, items, id, document, password)
            ==> r == Issue(svc, jwt, lib, StoredUser(lib, items[id]), now)
                && lib.uuidText(StoredUser(lib, items[id]).id) == id)
      && ((forall id :: !Credentials(lib, items, id, document, password)) ==> r == Err(InvalidCredentials))
  {
    if HasDocument(items, DigitsOf(document.value)) {
      var holder :| holder in items && items[holder].document == DigitsOf(document.value);
      LoginOfStored(svc, jwt, lib, items, holder, document, password, pick, now);
      forall id | Credentials(lib, items, id, document, password) ensures id == holder {
        assert items[id].document == items[holder].document;
      }
      assert lib.matches(Password(items[holder].password), password) ==>
        Credentials(lib, items, holder, document, password);
    } else {
      LoginOfNobody(svc, jwt, lib, items, document, password, pick, now);
    }
  }

  /** What is issued is the user as given, and a token that was signed with the service's secret over that user's own
      identifier, email and roles. */
  lemma IssuedExactly(svc: TokenService, jwt: Jwt, lib: Lib, user: AuthUser, now: Time)
    ensures var r := Issue(svc, jwt, lib, user, now);
      var id := lib.uuidText(user.id);
      var signed := jwt.sign(svc.secret, AuthClaims(id, user.email, user.roles, svc.issuer, id, NumericDate(now),
                                                    NumericDate(now + svc.expiration)));
      && (r.Ok? <==> signed.ok)
      && (r.Err? ==> r.error == SigningError)
      && (r.Ok? ==> r.value.user == user && r.value.token == AccessToken(signed.value, now + svc.expiration))
      && (r.Ok? ==> Generate(svc, jwt, lib, user, now) == Ok(r.value.token))
  {
  }

  /** What a stored user with the right password gets, whichever item the database picks: an answer with that user's own
      stored data, a token reported to live the full lifetime, and from the token, until it expires, exactly the
      user's identifier, email and roles. Nothing but signing can make this login fail. */
  lemma LoginGivesOwnData(svc: TokenService, jwt: Jwt, lib: Lib, items: Items, id: string, document: Document,
                          password: string, pick: string, issued: Time, now: Time)
    requires Lawful(lib) && JwtLawful(jwt) && StoreInvariant(lib, items)
    requires Credentials(lib, items, id, document, password)
    ensures var r := Authenticate(svc, jwt, lib, items, document, password, true, pick, issued);
      var m := items[id];
      && (r.Ok? <==> jwt.sign(svc.secret, AuthClaims(id, m.email, m.roles, svc.issuer, id, NumericDate(issued),
                                                     NumericDate(issued + svc.expiration))).ok)
      && (r.Err? ==> r.error == SigningError)
      && (r.Ok? ==>
            && lib.uuidText(r.value.user.id) == id && r.value.user.name == m.name && r.value.user.email == m.email
            && r.value.user.password.hash == m.password && r.value.user.roles == m.roles
            && r.value.token.expiresAt == issued + svc.expiration
            && Validate(svc, jwt, lib, r.value.token.value, now)
                 == if now < Expiry(svc, issued) then
                      Ok(Claims(lib.parseUuid(id).value, m.email, m.roles, Expiry(svc, issued)))
                    else Err(ExpiredToken))
  {
    LoginOfStored(svc, jwt, lib, items, id, document, password, pick, issued);
    var user := StoredUser(lib, items[id]);
    IssuedExactly(svc, jwt, lib, user, issued);
    assert items[id].id == id;
    if Issue(svc, jwt, lib, user, issued).Ok? {
      TokenLifetime(svc, jwt, lib, user, issued, now);
    }
  }

  /** Whoever can log in is unique. */
  lemma CredentialsUnique(lib: Lib, items: Items, i: string, j: string, document: Document, p: string, q: string)
    requires Unique(items) && Credentials(lib, items, i, document, p) && Credentials(lib, items, j, document, q)
    ensures i == j
  {
  }

  // ---- Over runs ----

  /** After any serial run that does not delete the user, login under the user's document depends on the last
      password set by an accepted update, and on nothing else. */
  lemma LoginWithLastPassword(svc: TokenService, jwt: Jwt, lib: Lib, items: Items, requests: seq<Request>, id: Uuid,
                              document: Document, password: string, pick: string, now: Time)
    requires Lawful(lib) && StoreInvariant(lib, items) && GoodRequests(lib, requests) && lib.uuidText(id) in items
    requires forall i :: 0 <= i < |requests| ==> !Deletes(requests[i], id)
    requires DigitsOf(document.value) == items[lib.uuidText(id)].document
    ensures var after := SerialRun(lib, items, requests);
      var key := lib.uuidText(id);
      var last := LastOf(Supplies(lib, items, requests, id, PasswordField), [items[key].password]);
      && key in after && StoredUser(lib, after[key]).id == id && |last| == 1
      && Authenticate(svc, jwt, lib, after, document, password, true, pick, now)
           == if lib.matches(Password(last[0]), password) then Issue(svc, jwt, lib, StoredUser(lib, after[key]), now)
              else Err(InvalidCredentials)
  {
    var key := lib.uuidText(id);
    LastWriterWins(lib, items, requests, id, PasswordField);
    SerialRunKeepsInvariant(lib, items, requests);
    var after := SerialRun(lib, items, requests);
    assert Stored(after[key], PasswordField) == [after[key].password];
    LoginOfStored(svc, jwt, lib, after, key, document, password, pick, now);
    assert after[key].id == key;
    assert lib.parseUuid(key) == Parsed(id, true);
  }

  predicate CreatesDocument(r: Request, document: string) {
    r.Create? && r.create.document.value == document
  }

  lemma ExecKeepsUnheld(lib: Lib, items: Items, r: Request, document: string)
    requires Lawful(lib) && WellFormed(lib, items) && GoodRequest(lib, r)
    requires !HasDocument(items, document) && !CreatesDocument(r, document)
    ensures !HasDocument(Exec(lib, items, r).0, document)
  {
    match r
    case Create(input, env) => CreateEffect(lib, items, input, env);
    case Update(input, env) =>
      UpdateEffect(lib, items, input, env);
      if UpdateAccepted(lib, items, input, env) {
        UpdatedItemIsGood(lib, items[lib.uuidText(input.id)], input, env.touch);
      }
    case Delete(_, _) =>
  }

  /** A document that nobody holds is held by nobody until a create brings it. */
  lemma {:induction false} UnheldOverRuns(lib: Lib, items: Items, requests: seq<Request>, document: string)
    requires Lawful(lib) && StoreInvariant(lib, items) && GoodRequests(lib, requests) && !HasDocument(items, document)
    requires forall i :: 0 <= i < |requests| ==> !CreatesDocument(requests[i], document)
    ensures !HasDocument(SerialRun(lib, items, requests), document)
  {
    if requests != [] {
      var n := |requests| - 1;
      UnheldOverRuns(lib, items, requests[..n], document);
      SerialRunKeepsInvariant(lib, items, requests[..n]);
      ExecKeepsUnheld(lib, SerialRun(lib, items, requests[..n]), requests[n], document);
    }
  }

  /** Once the user is deleted, login under the user's document fails, whatever the password, now and after every
      serial run in which nobody registers with that document again. */
  lemma LoginFailsAfterDelete(svc: TokenService, jwt: Jwt, lib: Lib, items: Items, id: Uuid, env: Env,
                              requests: seq<Request>, document: Document, password: string, pick: string, now: Time)
    requires Lawful(lib) && StoreInvariant(lib, items) && lib.uuidText(id) in items && env.upWrite
    requires DigitsOf(document.value) == items[lib.uuidText(id)].document
    requires GoodRequests(lib, requests)
    requires forall i :: 0 <= i < |requests| ==> !CreatesDocument(requests[i], DigitsOf(document.value))
    ensures var after := SerialRun(lib, ExecDelete(lib, items, id, env).0, requests);
      Authenticate(svc, jwt, lib, after, document, password, true, pick, now) == Err(InvalidCredentials)
  {
    var removed := ExecDelete(lib, items, id, env).0;
    ExecKeepsInvariant(lib, items, Delete(id, env));
    assert removed == Remove(items, lib.uuidText(id));
    UnheldOverRuns(lib, removed, requests, DigitsOf(document.value));
    LoginOfNobody(svc, jwt, lib, SerialRun(lib, removed, requests), document, password, pick, now);
  }

  /** A login that succeeds on a well-formed table, whichever item the database picks, is that of a stored user with
      these credentials. */
  lemma LoginIsOfStored(svc: TokenService, jwt: Jwt, lib: Lib, items: Items, document: Document, password: string,
                        pick: string, now: Time)
    requires WellFormed(lib, items)
    ensures var r := Authenticate(svc, jwt, lib, items, document, password, true, pick, now);
      r.Ok? ==>
        && Credentials(lib, items, lib.uuidText(r.value.user.id), document, password)
        && r == Issue(svc, jwt, lib, StoredUser(lib, items[lib.uuidText(r.value.user.id)]), now)
  {
    var answer := QueryOne(items, ByDocument, DigitsOf(document.value), pick);
    if answer.Some? {
      ToUserViewOfWellFormed(lib, answer.value);
      assert Keyed(items) ==> answer.value.id in items;
    }
  }

  lemma IssuedFromWellFormed(svc: TokenService, jwt: Jwt, lib: Lib, items: Items,
                             document: Document, password: string, pick: string, issued: Time, now: Time)
    requires Lawful(lib) && JwtLawful(jwt) && WellFormed(lib, items) && now < Expiry(svc, issued)
    ensures var r := Authenticate(svc, jwt, lib, items, document, password, true, pick, issued);
      r.Ok? ==>
        var claims := Validate(svc, jwt, lib, r.value.token.value, now);
        && claims.Ok? && ValidRoles(claims.value.roles)
        && Credentials(lib, items, lib.uuidText(claims.value.userId), document, password)
        && claims.value.email == items[lib.uuidText(claims.value.userId)].email
        && claims.value.roles == items[lib.uuidText(claims.value.userId)].roles
  {
    LoginIsOfStored(svc, jwt, lib, items, document, password, pick, issued);
    var r := Authenticate(svc, jwt, lib, items, document, password, true, pick, issued);
    if r.Ok? {
      assert WellFormedItem(lib, items[lib.uuidText(r.value.user.id)]);
      TokenLifetime(svc, jwt, lib, r.value.user, issued, now);
    }
  }

  /** At every moment of every interleaved run, whichever item the database picks: a token that login issues
      validates, until it expires, to the identifier of a stored user with that document and password, and to that
      user's own stored email and roles, which are not empty and all valid. */
  lemma IssuedTokensCarryValidRoles(svc: TokenService, jwt: Jwt, lib: Lib, items: Items, requests: seq<Request>,
                                    schedule: seq<nat>, document: Document, password: string, pick: string,
                                    issued: Time, now: Time)
    requires Lawful(lib) && JwtLawful(jwt) && WellFormed(lib, items) && GoodRequests(lib, requests)
    requires now < Expiry(svc, issued)
    ensures var after := Run(lib, Start(items, requests), schedule).items;
      var r := Authenticate(svc, jwt, lib, after, document, password, true, pick, issued);
      r.Ok? ==>
        var claims := Validate(svc, jwt, lib, r.value.token.value, now);
        && claims.Ok? && ValidRoles(claims.value.roles)
        && Credentials(lib, after, lib.uuidText(claims.value.userId), document, password)
        && claims.value.email == after[lib.uuidText(claims.value.userId)].email
        && claims.value.roles == after[lib.uuidText(claims.value.userId)].roles
  {
    StartIsGood(lib, items, requests);
    WellFormedUnderInterleaving(lib, Start(items, requests), schedule);
    var after := Run(lib, Start(items, requests), schedule).items;
    IssuedFromWellFormed(svc, jwt, lib, after, document, password, pick, issued, now);
  }

  /** Once no request in flight can bring a deleted user back, no token is issued to that user, whatever the
      credentials and whatever the requests in flight do. */
  lemma DeletedUserGetsNoToken(svc: TokenService, jwt: Jwt, lib: Lib, c: Conf, schedule: seq<nat>, id: Uuid,
                               document: Document, password: string, pick: string, issued: Time)
    requires Lawful(lib) && WellFormed(lib, c.items) && GoodProcs(lib, c)
    requires lib.uuidText(id) !in c.items && Deletion.NobodyBrings(c, id)
    ensures var after := Run(lib, c, schedule).items;
      var r := Authenticate(svc, jwt, lib, after, document, password, true, pick, issued);
      r.Ok? ==> r.value.user.id != id
  {
    Deletion.NobodyBringsStays(lib, c, schedule, id);
    WellFormedUnderInterleaving(lib, c, schedule);
    LoginIsOfStored(svc, jwt, lib, Run(lib, c, schedule).items, document, password, pick, issued);
  }
}
