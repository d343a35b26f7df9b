/** The guards of the user handlers: request bodies become use case inputs only through the value object
    constructors. */
module Handlers {
  import opened Prelude
  import opened Text
  import opened Library
  import opened StrUtil
  import opened Authz
  import opened UserDomain
  import opened Table
  import opened UserStore
  import opened UseCases
  import opened Serial
  import opened Interleaving
  import opened Token
  import opened Login

  datatype CreateBody = CreateBody(
    name: string, document: string, email: string, phoneNumber: string, password: string, roles: seq<string>)

  datatype UpdateBody = UpdateBody(
    name: Option<string>, email: Option<string>, phoneNumber: Option<string>, password: Option<string>,
    roles: Option<seq<string>>)

  /** Every part of the body makes a value object; `salt` stands for the randomness of the password hash. */
  predicate CreateBodyParses(lib: Lib, body: CreateBody, salt: nat) {
    && lib.newDocument(body.document).ok && lib.newEmail(body.email).ok && lib.newPhone(body.phoneNumber).ok
    && lib.newPassword(body.password, salt).ok && ValidRoles(body.roles)
  }

  function CreateInputOf(lib: Lib, body: CreateBody, salt: nat): CreateInput {
    CreateInput(body.name, lib.newDocument(body.document).value, lib.newPhone(body.phoneNumber).value,
                lib.newEmail(body.email).value, lib.newPassword(body.password, salt).value, body.roles)
  }

  /** The error for roles that are not valid. */
  function RolesError(roles: seq<string>): Error {
    if roles == [] then RolesRequired else InvalidRole
  }

  /** The error is that of the first bad part, in the order document, email, phone number, password, roles. */
  method BuildCreate(lib: Lib, body: CreateBody, salt: nat) returns (r: Result<CreateInput>)
    ensures r.Ok? <==> CreateBodyParses(lib, body, salt)
    ensures r.Ok? ==> r.value == CreateInputOf(lib, body, salt)
    ensures r.Ok? ==>
      && r.value.name == body.name && r.value.roles == body.roles
      && Parsed(r.value.document, true) == lib.newDocument(body.document)
      && Parsed(r.value.email, true) == lib.newEmail(body.email)
      && Parsed(r.value.phoneNumber, true) == lib.newPhone(body.phoneNumber)
      && Parsed(r.value.password, true) == lib.newPassword(body.password, salt)
    ensures r.Err? ==>
      (if !lib.newDocument(body.document).ok then r.error == InvalidDocument
       else if !lib.newEmail(body.email).ok then r.error == InvalidEmail
       else if !lib.newPhone(body.phoneNumber).ok then r.error == InvalidPhone
       else if !lib.newPassword(body.password, salt).ok then r.error == InvalidPassword
       else r.error == RolesError(body.roles))
  {
    var document := lib.newDocument(body.document);
    if !document.ok {
      return Err(InvalidDocument);
    }
    var email := lib.newEmail(body.email);
    if !email.ok {
      return Err(InvalidEmail);
    }
    var phone := lib.newPhone(body.phoneNumber);
    if !phone.ok {
      return Err(InvalidPhone);
    }
    var password := lib.newPassword(body.password, salt);
    if !password.ok {
      return Err(InvalidPassword);
    }
    var roles := NewRoles(body.roles);
    if roles.Err? {
      return Err(roles.error);
    }
    return Ok(CreateInput(body.name, document.value, phone.value, email.value, password.value, roles.value));
  }

  predicate UpdateBodyParses(lib: Lib, body: UpdateBody, salt: nat) {
    && (body.email.Some? ==> lib.newEmail(body.email.value).ok)
    && (body.phoneNumber.Some? ==> lib.newPhone(body.phoneNumber.value).ok)
    && (body.password.Some? ==> lib.newPassword(body.password.value, salt).ok)
    && (body.roles.Some? ==> ValidRoles(body.roles.value))
  }

  function UpdateInputOf(lib: Lib, id: Uuid, body: UpdateBody, salt: nat): UpdateInput {
    UpdateInput(id, body.name,
                if body.phoneNumber.Some? then Some(lib.newPhone(body.phoneNumber.value).value) else None,
                if body.email.Some? then Some(lib.newEmail(body.email.value).value) else None,
                if body.password.Some? then Some(lib.newPassword(body.password.value, salt).value) else None,
                body.roles)
  }

  /** The error is that of the first supplied part that is bad, in the order email, phone number, password, roles. */
  method BuildUpdate(lib: Lib, id: Uuid, body: UpdateBody, salt: nat) returns (r: Result<UpdateInput>)
    ensures r.Ok? <==> UpdateBodyParses(lib, body, salt)
    ensures r.Ok? ==> r.value == UpdateInputOf(lib, id, body, salt)
    ensures r.Ok? ==>
      && r.value.id == id && r.value.name == body.name && r.value.roles == body.roles
      && (r.value.email.Some? <==> body.email.Some?)
      && (body.email.Some? ==> Parsed(r.value.email.value, true) == lib.newEmail(body.email.value))
      && (r.value.phoneNumber.Some? <==> body.phoneNumber.Some?)
      && (body.phoneNumber.Some? ==> Parsed(r.value.phoneNumber.value, true) == lib.newPhone(body.phoneNumber.value))
      && (r.value.password.Some? <==> body.password.Some?)
      && (body.password.Some? ==> Parsed(r.value.password.value, true) == lib.newPassword(body.password.value, salt))
    ensures r.Err? ==>
      (if body.email.Some? && !lib.newEmail(body.email.value).ok then r.error == InvalidEmail
       else if body.phoneNumber.Some? && !lib.newPhone(body.phoneNumber.value).ok then r.error == InvalidPhone
       else if body.password.Some? && !lib.newPassword(body.password.value, salt).ok then r.error == InvalidPassword
       else body.roles.Some? && r.error == RolesError(body.roles.value))
  {
    var email: Option<Email> := None;
    if body.email.Some? {
      var vo := lib.newEmail(body.email.value);
      if !vo.ok {
        return Err(InvalidEmail);
      }
      email := Some(vo.value);
    }
    var phone: Option<PhoneNumber> := None;
    if body.phoneNumber.Some? {
      var vo := lib.newPhone(body.phoneNumber.value);
      if !vo.ok {
        return Err(InvalidPhone);
      }
      phone := Some(vo.value);
    }
    var password: Option<Password> := None;
    if body.password.Some? {
      var vo := lib.newPassword(body.password.value, salt);
      if !vo.ok {
        return Err(InvalidPassword);
      }
      password := Some(vo.value);
    }
    var roles: Option<Roles> := None;
    if body.roles.Some? {
      var vo := NewRoles(body.roles.value);
      if vo.Err? {
        return Err(vo.error);
      }
      roles := Some(vo.value);
    }
    return Ok(UpdateInput(id, body.name, phone, email, password, roles));
  }

  /** The request was made by a handler. */
  ghost predicate Served(lib: Lib, r: Request) {
    match r
    case Create(input, env) =>
      && env.newId != NIL_UUID
      && exists body, salt :: CreateBodyParses(lib, body, salt) && input == CreateInputOf(lib, body, salt)
    case Update(input, env) =>
      exists body, salt :: UpdateBodyParses(lib, body, salt) && input == UpdateInputOf(lib, input.id, body, salt)
    case Delete(_, _) => true
  }

  /** What the handlers let through are good requests. */
  lemma ServedIsGood(lib: Lib, r: Request)
    requires LawfulConstructors(lib) && Served(lib, r)
    ensures GoodRequest(lib, r)
  {
    match r
    case Create(input, env) =>
      var body, salt :| CreateBodyParses(lib, body, salt) && input == CreateInputOf(lib, body, salt);
    case Update(input, env) =>
      var body, salt :| UpdateBodyParses(lib, body, salt) && input == UpdateInputOf(lib, input.id, body, salt);
    case Delete(_, _) =>
  }

  /** Over every run, however interleaved, of requests that came through the handlers, from an empty table: every
      stored user's roles are such as NewRoles accepts, so reading them unchecked returns nothing else, and a token
      that login issues carries such roles until it expires. */
  lemma RolesEndToEnd(svc: TokenService, jwt: Jwt, lib: Lib, requests: seq<Request>, schedule: seq<nat>,
                      document: Document, password: string, pick: string, issued: Time, now: Time)
    requires Lawful(lib) && LawfulConstructors(lib) && JwtLawful(jwt)
    requires forall i :: 0 <= i < |requests| ==> Served(lib, requests[i])
    requires now < Expiry(svc, issued)
    ensures var items := Run(lib, Start(map[], requests), schedule).items;
      && (forall id :: id in items ==> NewRoles(NewRolesUnchecked(items[id].roles)) == Ok(items[id].roles))
      && (var r := Authenticate(svc, jwt, lib, items, document, password, true, pick, issued);
          r.Ok? ==>
            var claims := Validate(svc, jwt, lib, r.value.token.value, now);
            claims.Ok? && NewRoles(claims.value.roles) == Ok(claims.value.roles))
  {
    forall i | 0 <= i < |requests| ensures GoodRequest(lib, requests[i]) {
      ServedIsGood(lib, requests[i]);
    }
    StartIsGood(lib, map[], requests);
    WellFormedUnderInterleaving(lib, Start(map[], requests), schedule);
    IssuedTokensCarryValidRoles(svc, jwt, lib, map[], requests, schedule, document, password, pick, issued, now);
  }

  /** From the body to the table: what an accepted create stores is what its body asks for, and nothing else. */
  lemma CreatedAsAsked(lib: Lib, items: Items, body: CreateBody, salt: nat, env: Env)
    requires Lawful(lib) && LawfulConstructors(lib) && WellFormed(lib, items)
    requires CreateBodyParses(lib, body, salt) && env.newId != NIL_UUID
    requires ExecCreate(lib, items, CreateInputOf(lib, body, salt), env).1.Success?
    ensures var after := ExecCreate(lib, items, CreateInputOf(lib, body, salt), env).0;
      var key := lib.uuidText(env.newId);
      && key !in items && key in after && Remove(after, key) == items
      && after[key].id == key && after[key].name == TrimSpace(body.name)
      && after[key].document == lib.newDocument(body.document).value.value
      && after[key].email == lib.newEmail(body.email).value.text
      && after[key].phoneNumber == lib.newPhone(body.phoneNumber).value.text
      && lib.matches(Password(after[key].password), body.password)
      && after[key].roles == body.roles
      && after[key].createdAt == after[key].updatedAt == lib.timeText(env.now)
  {
    var input := CreateInputOf(lib, body, salt);
    ServedIsGood(lib, Create(input, env));
    CreateEffect(lib, items, input, env);
    ReplacingOne(items, lib.uuidText(env.newId), ToModel(lib, NewUserOf(input, env).value));
    assert Remove(items, lib.uuidText(env.newId)) == items;
  }

  /** The same for an update: what the body supplies is stored, and what it does not supply stays. */
  lemma UpdatedAsAsked(lib: Lib, items: Items, id: Uuid, body: UpdateBody, salt: nat, env: Env)
    requires Lawful(lib) && LawfulConstructors(lib) && WellFormed(lib, items) && UpdateBodyParses(lib, body, salt)
    requires ExecUpdate(lib, items, UpdateInputOf(lib, id, body, salt), env).1.Success?
    ensures var after := ExecUpdate(lib, items, UpdateInputOf(lib, id, body, salt), env).0;
      var key := lib.uuidText(id);
      && key in items && key in after && Remove(after, key) == Remove(items, key)
      && after[key].id == key && after[key].document == items[key].document
      && after[key].createdAt == items[key].createdAt
      && after[key].name == (if body.name.Some? then TrimSpace(body.name.value) else items[key].name)
      && after[key].email == (if body.email.Some? then lib.newEmail(body.email.value).value.text else items[key].email)
      && after[key].phoneNumber == (if body.phoneNumber.Some? then lib.newPhone(body.phoneNumber.value).value.text
                                    else items[key].phoneNumber)
      && after[key].password == (if body.password.Some? then lib.newPassword(body.password.value, salt).value.hash
                                 else items[key].password)
      && after[key].roles == (if body.roles.Some? then body.roles.value else items[key].roles)
  {
    var input := UpdateInputOf(lib, id, body, salt);
    var key := lib.uuidText(id);
    ServedIsGood(lib, Update(input, env));
    UpdateEffect(lib, items, input, env);
    var m := UpdatedItem(lib, items[key], input, env.touch);
    UpdatedItemIsGood(lib, items[key], input, env.touch);
    UpdatedItemHolds(lib, items[key], input, env.touch);
    ReplacingOne(items, key, m);
  }

  /** From the body to the login: a password given in an accepted update body opens the account, whatever salt it was
      hashed with. */
  lemma NewPasswordOpens(lib: Lib, items: Items, id: Uuid, body: UpdateBody, salt: nat, env: Env, document: Document)
    requires Lawful(lib) && LawfulConstructors(lib) && StoreInvariant(lib, items)
    requires UpdateBodyParses(lib, body, salt) && body.password.Some?
    requires UpdateAccepted(lib, items, UpdateInputOf(lib, id, body, salt), env)
    requires DigitsOf(document.value) == items[lib.uuidText(id)].document
    ensures var after := ExecUpdate(lib, items, UpdateInputOf(lib, id, body, salt), env).0;
      Credentials(lib, after, lib.uuidText(id), document, body.password.value)
  {
    var input := UpdateInputOf(lib, id, body, salt);
    ServedIsGood(lib, Update(input, env));
    UpdateOneStep(lib, items, input, env, id, PasswordField);
    UpdateEffect(lib, items, input, env);
  }
}
