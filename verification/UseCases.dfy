/** The use cases that run against the user repository, each as a function of the stored items and as a method
    that makes the repository calls one after the other. */
module UseCases {
  import opened Prelude
  import opened Library
  import opened StrUtil
  import opened Authz
  import opened UserDomain
  import opened Table
  import opened UserStore
  import opened Repository

  datatype CreateInput = CreateInput(
    name: string, document: Document, phoneNumber: PhoneNumber, email: Email, password: Password, roles: Roles)

  datatype UpdateInput = UpdateInput(
    id: Uuid, name: Option<string>, phoneNumber: Option<PhoneNumber>, email: Option<Email>,
    password: Option<Password>, roles: Option<Roles>)

  /** What the clock shows at each Touch of an update, in the order in which the code may reach them. */
  datatype Touches = Touches(name: Time, phoneNumber: Time, password: Time, roles: Time, email: Time)

  /** What the outside world answers to one execution of a use case: which of its database calls are answered
      (the first, the second, and the write), the UUID of a new user, those that toDomain would make for the
      items of the first and of the second call, the clock, and which of several matching items a query with
      Limit 1 returns. */
  datatype Env = Env(
    up1: bool, up2: bool, upWrite: bool, newId: Uuid, id1: Uuid, id2: Uuid, now: Time, touch: Touches, pick: string)

  datatype Request =
    | Create(create: CreateInput, env: Env)
    | Update(update: UpdateInput, env: Env)
    | Delete(id: Uuid, env: Env)

  /** The value objects were made by their constructors, the roles by NewRoles. */
  ghost predicate GoodCreate(lib: Lib, input: CreateInput) {
    && GoodDocument(lib, input.document) && GoodPhone(lib, input.phoneNumber) && GoodEmail(lib, input.email)
    && GoodPassword(lib, input.password) && ValidRoles(input.roles)
  }

  ghost predicate GoodUpdate(lib: Lib, input: UpdateInput) {
    && (input.phoneNumber.Some? ==> GoodPhone(lib, input.phoneNumber.value))
    && (input.email.Some? ==> GoodEmail(lib, input.email.value))
    && (input.password.Some? ==> GoodPassword(lib, input.password.value))
    && (input.roles.Some? ==> ValidRoles(input.roles.value))
  }

  /** A request as the handlers make it; uuid.New never answers the nil UUID. */
  ghost predicate GoodRequest(lib: Lib, r: Request) {
    match r
    case Create(input, env) => GoodCreate(lib, input) && env.newId != NIL_UUID
    case Update(input, env) => GoodUpdate(lib, input)
    case Delete(_, _) => true
  }

  function NewUserOf(input: CreateInput, env: Env): Option<UserRecord> {
    NewUserRecord(NIL_UUID, input.name, input.document, input.phoneNumber, input.email, input.password, input.roles,
                  env.newId, env.now)
  }

  ghost function ExecCreate(lib: Lib, items: Items, input: CreateInput, env: Env): (Items, Outcome) {
    if !env.up1 then (items, Failure(ClientError))
    else if HasDocument(items, DigitsOf(input.document.value)) then (items, Failure(DuplicateDocument))
    else if !env.up2 then (items, Failure(ClientError))
    else if EmailExists(lib, items, input.email.text, env.pick, env.id2, env.now) then
      (items, Failure(DuplicateEmail))
    else match NewUserOf(input, env)
      case None => (items, Failure(InvalidUserName))
      case Some(u) => WriteNew(lib, items, u, env)
  }

  /** The conditional put at the end of a create. */
  ghost function WriteNew(lib: Lib, items: Items, u: UserRecord, env: Env): (Items, Outcome) {
    if !env.upWrite then (items, Failure(ClientError))
    else if lib.uuidText(u.id) in items then (items, Failure(UserAlreadyExists))
    else (PutIfAbsent(items, ToModel(lib, u)), Success)
  }

  /** The changes an update makes in memory before it looks at the email; nothing when the new name is blank. */
  function ChangeFields(u: UserRecord, input: UpdateInput, touch: Touches): Option<UserRecord> {
    var named := if input.name.Some? then Renamed(u, input.name.value, touch.name) else Some(u);
    match named
    case None => None
    case Some(u1) =>
      var u2 := if input.phoneNumber.None? then u1
                else u1.(phoneNumber := input.phoneNumber.value, updatedAt := touch.phoneNumber);
      var u3 := if input.password.None? then u2
                else u2.(password := input.password.value, updatedAt := touch.password);
      Some(if input.roles.Some? then u3.(roles := input.roles.value, updatedAt := touch.roles) else u3)
  }

  predicate ChangesEmail(u: UserRecord, input: UpdateInput) {
    input.email.Some? && u.email.text != input.email.value.text
  }

  function WithEmail(u: UserRecord, email: Email, now: Time): UserRecord {
    u.(email := email, updatedAt := now)
  }

  /** The end of an update, once the changes are made in memory. */
  ghost function FinishUpdate(lib: Lib, items: Items, u: UserRecord, input: UpdateInput, env: Env): (Items, Outcome) {
    if !ChangesEmail(u, input) then WriteOver(lib, items, u, env)
    else if !env.up2 then (items, Failure(ClientError))
    else if EmailExists(lib, items, input.email.value.text, env.pick, env.id2, env.now) then
      (items, Failure(DuplicateEmail))
    else WriteOver(lib, items, WithEmail(u, input.email.value, env.touch.email), env)
  }

  ghost function ExecUpdate(lib: Lib, items: Items, input: UpdateInput, env: Env): (Items, Outcome) {
    if !env.up1 then (items, Failure(ClientError))
    else match ReadByID(lib, items, input.id, env.id1, env.now)
      case None => (items, Failure(UserNotFound))
      case Some(u0) =>
        match ChangeFields(u0, input, env.touch)
        case None => (items, Failure(InvalidUserName))
        case Some(u) => FinishUpdate(lib, items, u, input, env)
  }

  /** The unconditional write at the end of an update. */
  ghost function WriteOver(lib: Lib, items: Items, u: UserRecord, env: Env): (Items, Outcome) {
    if env.upWrite then (Upsert(items, ToModel(lib, u)), Success) else (items, Failure(ClientError))
  }

  ghost function ExecDelete(lib: Lib, items: Items, id: Uuid, env: Env): (Items, Outcome) {
    if env.upWrite then (Remove(items, lib.uuidText(id)), Success) else (items, Failure(ClientError))
  }

  /** One whole use case, with nothing else happening to the table meanwhile. */
  ghost function Exec(lib: Lib, items: Items, r: Request): (Items, Outcome) {
    match r
    case Create(input, env) => ExecCreate(lib, items, input, env)
    case Update(input, env) => ExecUpdate(lib, items, input, env)
    case Delete(id, env) => ExecDelete(lib, items, id, env)
  }

  // ---- The methods ----

  method CheckIfUserExists(repo: UserRepository, document: Document, email: Email, env: Env)
    returns (r: Outcome, ghost pick: string)
    requires repo.table.Valid()
    ensures r == if !env.up1 then Failure(ClientError)
                 else if HasDocument(repo.table.items, DigitsOf(document.value)) then Failure(DuplicateDocument)
                 else if !env.up2 then Failure(ClientError)
                 else if EmailExists(repo.lib, repo.table.items, email.text, pick, env.id2, env.now) then
                   Failure(DuplicateEmail)
                 else Success
  {
    pick := "";
    var digits := OnlyNumbers(document.value);
    var existsDoc, answer, _ := repo.ExistsByDocument(digits, env.up1);
    if answer.Failure? {
      return answer, pick;
    }
    if existsDoc {
      return Failure(DuplicateDocument), pick;
    }
    var existsEmail;
    existsEmail, answer, pick := repo.ExistsByEmail(email.text, env.up2, env.id2, env.now);
    if answer.Failure? {
      return answer, pick;
    }
    if existsEmail {
      return Failure(DuplicateEmail), pick;
    }
    return Success, pick;
  }

  method CreateUser(repo: UserRepository, input: CreateInput, env: Env) returns (r: Outcome, ghost pick: string)
    requires repo.table.Valid()
    modifies repo.table
    ensures repo.table.Valid()
    ensures (repo.table.items, r) == ExecCreate(repo.lib, old(repo.table.items), input, env.(pick := pick))
  {
    r, pick := CheckIfUserExists(repo, input.document, input.email, env);
    if r.Failure? {
      return;
    }
    var user := NewUser(NIL_UUID, input.name, input.document, input.phoneNumber, input.email, input.password, input.roles,
                        env.newId, env.now);
    if user == null {
      return Failure(InvalidUserName), pick;
    }
    r := repo.Create(user, env.upWrite);
  }

  /** The part of UpdateUser.Execute that changes the loaded object: on failure the object may be half changed. */
  method ApplyFields(user: User, input: UpdateInput, touch: Touches) returns (r: Outcome)
    modifies user
    ensures r == if ChangeFields(old(user.Value()), input, touch).None? then Failure(InvalidUserName) else Success
    ensures r.Success? ==> Some(user.Value()) == ChangeFields(old(user.Value()), input, touch)
  {
    if input.name.Some? {
      r := user.ChangeName(input.name.value, touch.name);
      if r.Failure? {
        return;
      }
    }
    if input.phoneNumber.Some? {
      user.ChangePhoneNumber(input.phoneNumber.value, touch.phoneNumber);
    }
    if input.password.Some? {
      user.ChangePassword(input.password.value, touch.password);
    }
    if input.roles.Some? {
      user.ChangeRoles(input.roles.value, touch.roles);
    }
    r := Success;
  }

  method UpdateUser(repo: UserRepository, input: UpdateInput, env: Env) returns (r: Outcome, ghost pick: string)
    requires repo.table.Valid()
    modifies repo.table
    ensures repo.table.Valid()
    ensures (repo.table.items, r) == ExecUpdate(repo.lib, old(repo.table.items), input, env.(pick := pick))
  {
    pick := "";
    var user;
    user, r := repo.GetByID(input.id, env.up1, env.id1, env.now);
    if r.Failure? {
      return;
    }
    if user == null {
      return Failure(UserNotFound), pick;
    }
    r := ApplyFields(user, input, env.touch);
    if r.Failure? {
      return;
    }
    if input.email.Some? && user.email.text != input.email.value.text {
      var taken;
      taken, r, pick := repo.ExistsByEmail(input.email.value.text, env.up2, env.id2, env.now);
      if r.Failure? {
        return;
      }
      if taken {
        return Failure(DuplicateEmail), pick;
      }
      user.ChangeEmail(input.email.value, env.touch.email);
    }
    r := repo.Update(user, env.upWrite);
  }

  method DeleteUser(repo: UserRepository, id: Uuid, env: Env) returns (r: Outcome)
    requires repo.table.Valid()
    modifies repo.table
    ensures repo.table.Valid()
    ensures (repo.table.items, r) == ExecDelete(repo.lib, old(repo.table.items), id, env)
  {
    r := repo.Delete(id, env.upWrite);
  }

  datatype UserView = UserView(
    id: Uuid, name: string, document: Document, email: Email, phoneNumber: PhoneNumber, roles: Roles)

  function ToView(u: UserRecord): UserView {
    UserView(u.id, u.name, u.document, u.email, u.phoneNumber, u.roles)
  }

  ghost function ExecGet(lib: Lib, items: Items, id: Uuid, env: Env): Result<UserView> {
    if !env.up1 then Err(ClientError)
    else match ReadByID(lib, items, id, env.id1, env.now)
      case None => Err(UserNotFound)
      case Some(u) => Ok(ToView(u))
  }

  method GetUser(repo: UserRepository, id: Uuid, env: Env) returns (r: Result<UserView>)
    ensures r == ExecGet(repo.lib, repo.table.items, id, env)
  {
    var user, answer := repo.GetByID(id, env.up1, env.id1, env.now);
    if answer.Failure? {
      return Err(answer.error);
    }
    if user == null {
      return Err(UserNotFound);
    }
    return Ok(UserView(user.id, user.name, user.document, user.email, user.phoneNumber, user.roles));
  }

  // ---- What the use cases do to a well-formed table ----

  /** What an update loads from a well-formed table is the stored entity, under its own identifier. */
  lemma LoadedIsStored(lib: Lib, items: Items, id: Uuid, env: Env)
    requires Lawful(lib) && WellFormed(lib, items)
    ensures var key := lib.uuidText(id);
      && ReadByID(lib, items, id, env.id1, env.now) == (if key in items then Some(Entity(lib, items[key])) else None)
      && (key in items ==> Entity(lib, items[key]).id == id && GoodUser(lib, Entity(lib, items[key])))
  {
    var key := lib.uuidText(id);
    if key in items {
      ToDomainOfWellFormed(lib, items[key], env.id1, env.now);
      assert lib.parseUuid(lib.uuidText(id)) == Parsed(id, true);
    }
  }

  /** The entity after all the changes an update asks for; nothing when the new name is blank. */
  function Updated(u: UserRecord, input: UpdateInput, touch: Touches): Option<UserRecord> {
    match ChangeFields(u, input, touch)
    case None => None
    case Some(u1) => Some(if ChangesEmail(u1, input) then WithEmail(u1, input.email.value, touch.email) else u1)
  }

  /** No change touches the identifier, the document or the creation time, and the entity invariant is kept. */
  lemma ChangeFieldsKeeps(lib: Lib, u: UserRecord, input: UpdateInput, touch: Touches)
    requires GoodUser(lib, u) && GoodUpdate(lib, input) && ChangeFields(u, input, touch).Some?
    ensures var u' := ChangeFields(u, input, touch).value;
      && u'.id == u.id && u'.document == u.document && u'.createdAt == u.createdAt && u'.email == u.email
      && GoodUser(lib, u')
  {
    if input.name.Some? {
      CheckedNameIsGood(input.name.value);
    }
  }

  lemma UpdatedKeeps(lib: Lib, u: UserRecord, input: UpdateInput, touch: Touches)
    requires GoodUser(lib, u) && GoodUpdate(lib, input) && Updated(u, input, touch).Some?
    ensures var u' := Updated(u, input, touch).value;
      && u'.id == u.id && u'.document == u.document && u'.createdAt == u.createdAt
      && GoodUser(lib, u')
  {
    ChangeFieldsKeeps(lib, u, input, touch);
  }

  /** When an update is accepted: the user is stored, the new name is not blank, and a new email is not in use. */
  ghost predicate UpdateAccepted(lib: Lib, items: Items, input: UpdateInput, env: Env) {
    var key := lib.uuidText(input.id);
    && env.up1 && env.upWrite
    && key in items
    && Updated(Entity(lib, items[key]), input, env.touch).Some?
    && (input.email.Some? && input.email.value.text != items[key].email ==>
          env.up2 && !HasEmail(items, input.email.value.text))
  }

  /** The item an accepted update leaves in place of `m`. */
  function UpdatedItem(lib: Lib, m: Item, input: UpdateInput, touch: Touches): Item
    requires Updated(Entity(lib, m), input, touch).Some?
  {
    ToModel(lib, Updated(Entity(lib, m), input, touch).value).(createdAt := m.createdAt)
  }

  /** No change touches the identifier or the email. */
  lemma ChangeFieldsHolds(u: UserRecord, input: UpdateInput, touch: Touches)
    requires ChangeFields(u, input, touch).Some?
    ensures ChangeFields(u, input, touch).value.id == u.id && ChangeFields(u, input, touch).value.email == u.email
  {
  }

  lemma FinishUpdateCases(lib: Lib, items: Items, u: UserRecord, input: UpdateInput, env: Env)
    requires input.email.Some? ==>
      (EmailExists(lib, items, input.email.value.text, env.pick, env.id2, env.now)
        == HasEmail(items, input.email.value.text))
    ensures var (items', outcome) := FinishUpdate(lib, items, u, input, env);
      var u' := if ChangesEmail(u, input) then WithEmail(u, input.email.value, env.touch.email) else u;
      && (outcome.Success? <==>
            env.upWrite && (ChangesEmail(u, input) ==> env.up2 && !HasEmail(items, input.email.value.text)))
      && items' == if outcome.Success? then Upsert(items, ToModel(lib, u')) else items
  {
  }

  /** The case analysis of UpdateEffect, from what the two reads answer. */
  lemma UpdateCases(lib: Lib, items: Items, input: UpdateInput, env: Env)
    requires var key := lib.uuidText(input.id);
      ReadByID(lib, items, input.id, env.id1, env.now) == if key in items then Some(Entity(lib, items[key])) else None
    requires input.email.Some? ==>
      (EmailExists(lib, items, input.email.value.text, env.pick, env.id2, env.now)
        == HasEmail(items, input.email.value.text))
    requires lib.uuidText(input.id) in items ==> Entity(lib, items[lib.uuidText(input.id)]).id == input.id
    ensures var (items', outcome) := ExecUpdate(lib, items, input, env);
      var key := lib.uuidText(input.id);
      && (outcome.Success? <==> UpdateAccepted(lib, items, input, env))
      && items' == if outcome.Success? then items[key := UpdatedItem(lib, items[key], input, env.touch)] else items
  {
    var key := lib.uuidText(input.id);
    if env.up1 && key in items && ChangeFields(Entity(lib, items[key]), input, env.touch).Some? {
      var u := ChangeFields(Entity(lib, items[key]), input, env.touch).value;
      ChangeFieldsHolds(Entity(lib, items[key]), input, env.touch);
      assert ExecUpdate(lib, items, input, env) == FinishUpdate(lib, items, u, input, env);
      FinishUpdateCases(lib, items, u, input, env);
    }
  }

  /** Exactly when an update succeeds, and what it leaves. Whatever error it answers, and wherever that error
      arose, nothing has changed, although the object in memory may have. */
  lemma UpdateEffect(lib: Lib, items: Items, input: UpdateInput, env: Env)
    requires Lawful(lib) && WellFormed(lib, items) && GoodUpdate(lib, input)
    ensures var (items', outcome) := ExecUpdate(lib, items, input, env);
      var key := lib.uuidText(input.id);
      && (outcome.Success? <==> UpdateAccepted(lib, items, input, env))
      && items' == if outcome.Success? then items[key := UpdatedItem(lib, items[key], input, env.touch)] else items
  {
    LoadedIsStored(lib, items, input.id, env);
    if input.email.Some? {
      ExistsByEmailExact(lib, items, input.email.value.text, env.pick, env.id2, env.now);
    }
    UpdateCases(lib, items, input, env);
  }

  ghost predicate CreateAccepted(lib: Lib, items: Items, input: CreateInput, env: Env) {
    && env.up1 && env.up2 && env.upWrite
    && !HasDocument(items, input.document.value)
    && !HasEmail(items, input.email.text)
    && NewUserOf(input, env).Some?
    && lib.uuidText(env.newId) !in items
  }

  lemma CreateCases(lib: Lib, items: Items, input: CreateInput, env: Env)
    requires DigitsOf(input.document.value) == input.document.value
    requires EmailExists(lib, items, input.email.text, env.pick, env.id2, env.now) <==> HasEmail(items, input.email.text)
    ensures var (items', outcome) := ExecCreate(lib, items, input, env);
      && (outcome.Success? <==> CreateAccepted(lib, items, input, env))
      && items' == if outcome.Success? then items[lib.uuidText(env.newId) := ToModel(lib, NewUserOf(input, env).value)]
                   else items
  {
  }

  /** Exactly when a create succeeds, and what it leaves. */
  lemma CreateEffect(lib: Lib, items: Items, input: CreateInput, env: Env)
    requires Lawful(lib) && WellFormed(lib, items) && GoodCreate(lib, input)
    ensures var (items', outcome) := ExecCreate(lib, items, input, env);
      && (outcome.Success? <==> CreateAccepted(lib, items, input, env))
      && items' == if outcome.Success? then items[lib.uuidText(env.newId) := ToModel(lib, NewUserOf(input, env).value)]
                   else items
  {
    DigitsOfFixes(input.document.value);
    ExistsByEmailExact(lib, items, input.email.text, env.pick, env.id2, env.now);
    CreateCases(lib, items, input, env);
  }

  /** On any table, whatever the document looks like, a create is a duplicate exactly when its digits are stored. */
  lemma CreateLooksUpDigits(lib: Lib, items: Items, input: CreateInput, env: Env)
    requires env.up1
    ensures ExecCreate(lib, items, input, env).1 == Failure(DuplicateDocument)
       <==> exists id :: id in items && items[id].document == DigitsOf(input.document.value)
  {
  }

  /** The document check of a create looks up the digits of the document, but stores the document as it is: it
      finds what an earlier create stored exactly when the document is digits only. */
  lemma DocumentCheckNeedsDigits(document: string)
    ensures (forall items: Items :: HasDocument(items, DigitsOf(document)) <==> HasDocument(items, document))
       <==> AllDigits(document)
  {
    DigitsOfFixes(document);
    if !AllDigits(document) {
      var items: Items := map["" := Item("", "", document, "", "", "", "", [], "", "")];
      assert items[""].document == document;
      assert HasDocument(items, document) && !HasDocument(items, DigitsOf(document));
    }
  }

  /** A new user whose request is good meets the entity invariant. */
  lemma NewUserIsGood(lib: Lib, input: CreateInput, env: Env)
    requires GoodCreate(lib, input) && env.newId != NIL_UUID && NewUserOf(input, env).Some?
    ensures var u := NewUserOf(input, env).value;
      && GoodUser(lib, u) && u.id == env.newId && u.document == input.document && u.email == input.email
  {
    CheckedNameIsGood(input.name);
  }

  /** A delete succeeds whether or not the user is stored, and afterwards there is no such user to get. */
  lemma DeleteEffect(lib: Lib, items: Items, id: Uuid, env: Env, read: Env)
    requires Lawful(lib) && WellFormed(lib, items)
    ensures var (items', outcome) := ExecDelete(lib, items, id, env);
      && (outcome.Success? <==> env.upWrite)
      && (lib.uuidText(id) !in items ==> items' == items)
      && (outcome.Success? && read.up1 ==> ExecGet(lib, items', id, read) == Err(UserNotFound))
  {
    var items' := Remove(items, lib.uuidText(id));
    assert WellFormed(lib, items');
    LoadedIsStored(lib, items', id, read);
  }

  /** Getting a user answers, field by field, what is stored under the identifier. */
  lemma GetExactly(lib: Lib, items: Items, id: Uuid, env: Env)
    requires Lawful(lib) && WellFormed(lib, items)
    ensures var r := ExecGet(lib, items, id, env);
      var key := lib.uuidText(id);
      && (!env.up1 ==> r == Err(ClientError))
      && (env.up1 && key !in items ==> r == Err(UserNotFound))
      && (env.up1 && key in items ==>
            && r.Ok? && r.value.id == id && r.value.name == items[key].name
            && r.value.document.value == items[key].document && r.value.email.text == items[key].email
            && r.value.phoneNumber.text == items[key].phoneNumber && r.value.roles == items[key].roles)
  {
    LoadedIsStored(lib, items, id, env);
  }

  // ---- All or nothing ----

  /** The key of the item a request is about. */
  function Target(lib: Lib, r: Request): string {
    match r
    case Create(_, env) => lib.uuidText(env.newId)
    case Update(input, _) => lib.uuidText(input.id)
    case Delete(id, _) => lib.uuidText(id)
  }

  lemma ReplacingOne(items: Items, key: string, m: Item)
    ensures Remove(items[key := m], key) == Remove(items, key)
  {
  }

  ghost predicate TouchesOnly(items: Items, items': Items, outcome: Outcome, key: string, stays: bool) {
    && (outcome.Failure? ==> items' == items)
    && (outcome.Success? ==> Remove(items', key) == Remove(items, key) && (key in items' <==> stays))
  }

  /** Whatever error a use case answers, the table is as before; when it succeeds, no other item than the one
      it is about has changed, come or gone. */
  lemma AllOrNothing(lib: Lib, items: Items, r: Request)
    requires Lawful(lib) && WellFormed(lib, items) && GoodRequest(lib, r)
    ensures var (items', outcome) := Exec(lib, items, r);
      TouchesOnly(items, items', outcome, Target(lib, r), !r.Delete?)
  {
    match r
    case Create(input, env) =>
      CreateEffect(lib, items, input, env);
      if Exec(lib, items, r).1.Success? {
        ReplacingOne(items, Target(lib, r), ToModel(lib, NewUserOf(input, env).value));
      }
    case Update(input, env) =>
      UpdateEffect(lib, items, input, env);
      if Exec(lib, items, r).1.Success? {
        ReplacingOne(items, Target(lib, r), UpdatedItem(lib, items[Target(lib, r)], input, env.touch));
      }
    case Delete(_, _) =>
  }
}
