/** The user service as its callers may think of it: a map from identifiers to users. The item table, read through
    the mapping, behaves exactly like this map. */
module Refinement {
  import opened Prelude
  import opened Text
  import StrUtil
  import opened Library
  import opened UserDomain
  import opened Table
  import opened UserStore
  import opened UseCases
  import opened Serial

  type Users = map<Uuid, UserRecord>

  // ---- The plain map ----

  ghost predicate EmailTaken(users: Users, email: Email) {
    exists u :: u in users && users[u].email == email
  }

  ghost predicate DocumentTaken(users: Users, document: Document) {
    exists u :: u in users && users[u].document == document
  }

  ghost function PlainCreate(users: Users, input: CreateInput, env: Env): (Users, Outcome) {
    if !env.up1 then (users, Failure(ClientError))
    else if DocumentTaken(users, input.document) then (users, Failure(DuplicateDocument))
    else if !env.up2 then (users, Failure(ClientError))
    else if EmailTaken(users, input.email) then (users, Failure(DuplicateEmail))
    else if AllSpace(input.name) then (users, Failure(InvalidUserName))
    else if !env.upWrite then (users, Failure(ClientError))
    else if env.newId in users then (users, Failure(UserAlreadyExists))
    else (users[env.newId := UserRecord(env.newId, TrimSpace(input.name), input.document, input.email, input.phoneNumber,
                                        input.password, input.roles, env.now, env.now)], Success)
  }

  function Or<T>(supplied: Option<T>, otherwise: T): T {
    if supplied.Some? then supplied.value else otherwise
  }

  /** The latest of the touches that an update makes, or the old update time. */
  function LastTouch(u: UserRecord, input: UpdateInput, touch: Touches): Time {
    if input.email.Some? && input.email.value != u.email then touch.email
    else if input.roles.Some? then touch.roles
    else if input.password.Some? then touch.password
    else if input.phoneNumber.Some? then touch.phoneNumber
    else if input.name.Some? then touch.name
    else u.updatedAt
  }

  /** The user with every supplied field replaced. */
  function Replaced(u: UserRecord, input: UpdateInput, touch: Touches): UserRecord {
    UserRecord(u.id, if input.name.Some? then TrimSpace(input.name.value) else u.name, u.document,
               Or(input.email, u.email), Or(input.phoneNumber, u.phoneNumber), Or(input.password, u.password),
               Or(input.roles, u.roles), u.createdAt, LastTouch(u, input, touch))
  }

  ghost function PlainUpdate(users: Users, input: UpdateInput, env: Env): (Users, Outcome) {
    if !env.up1 then (users, Failure(ClientError))
    else if input.id !in users then (users, Failure(UserNotFound))
    else if input.name.Some? && AllSpace(input.name.value) then (users, Failure(InvalidUserName))
    else
      var changesEmail := input.email.Some? && input.email.value != users[input.id].email;
      if changesEmail && !env.up2 then (users, Failure(ClientError))
      else if changesEmail && EmailTaken(users, input.email.value) then (users, Failure(DuplicateEmail))
      else if !env.upWrite then (users, Failure(ClientError))
      else (users[input.id := Replaced(users[input.id], input, env.touch)], Success)
  }

  ghost function PlainExec(users: Users, r: Request): (Users, Outcome) {
    match r
    case Create(input, env) => PlainCreate(users, input, env)
    case Update(input, env) => PlainUpdate(users, input, env)
    case Delete(id, env) => if env.upWrite then (users - {id}, Success) else (users, Failure(ClientError))
  }

  ghost function PlainRun(users: Users, requests: seq<Request>): Users {
    if requests == [] then users
    else PlainExec(PlainRun(users, requests[..|requests| - 1]), requests[|requests| - 1]).0
  }

  ghost function PlainAnswers(users: Users, requests: seq<Request>): seq<Outcome> {
    if requests == [] then []
    else
      var n := |requests| - 1;
      PlainAnswers(users, requests[..n]) + [PlainExec(PlainRun(users, requests[..n]), requests[n]).1]
  }

  function PlainGet(users: Users, id: Uuid): Result<UserView> {
    if id !in users then Err(UserNotFound)
    else
      var u := users[id];
      Ok(UserView(u.id, u.name, u.document, u.email, u.phoneNumber, u.roles))
  }

  // ---- The abstraction ----

  /** The map that a table stands for. */
  ghost function Abstract(lib: Lib, items: Items): Users {
    map u | u in (set id | id in items :: lib.parseUuid(id).value) && lib.uuidText(u) in items
      :: Entity(lib, items[lib.uuidText(u)])
  }

  /** Membership and values of the abstraction. */
  lemma AbstractAt(lib: Lib, items: Items, u: Uuid)
    requires Lawful(lib)
    ensures u in Abstract(lib, items) <==> lib.uuidText(u) in items
    ensures u in Abstract(lib, items) ==> Abstract(lib, items)[u] == Entity(lib, items[lib.uuidText(u)])
  {
    var key := lib.uuidText(u);
    assert lib.parseUuid(key) == Parsed(u, true);
    if key in items {
      assert lib.parseUuid(key).value in set id | id in items :: lib.parseUuid(id).value;
    }
  }

  /** The abstraction holds what toDomain makes of each item, under its own identifier. */
  lemma AbstractIs(lib: Lib, items: Items, u: Uuid)
    requires Lawful(lib) && WellFormed(lib, items)
    ensures u in Abstract(lib, items) <==> lib.uuidText(u) in items
    ensures u in Abstract(lib, items) ==>
      && Abstract(lib, items)[u] == Entity(lib, items[lib.uuidText(u)])
      && ToDomain(lib, items[lib.uuidText(u)], NIL_UUID, 0) == Some(Abstract(lib, items)[u])
      && Abstract(lib, items)[u].id == u
  {
    AbstractAt(lib, items, u);
    var key := lib.uuidText(u);
    if key in items {
      ToDomainOfWellFormed(lib, items[key], NIL_UUID, 0);
      assert lib.parseUuid(key) == Parsed(u, true);
    }
  }

  lemma AbstractPut(lib: Lib, items: Items, u: Uuid, m: Item)
    requires Lawful(lib)
    ensures Abstract(lib, items[lib.uuidText(u) := m]) == Abstract(lib, items)[u := Entity(lib, m)]
  {
    var items' := items[lib.uuidText(u) := m];
    forall v ensures v in Abstract(lib, items') <==> v in Abstract(lib, items)[u := Entity(lib, m)]
      ensures v in Abstract(lib, items') ==> Abstract(lib, items')[v] == Abstract(lib, items)[u := Entity(lib, m)][v]
    {
      AbstractAt(lib, items, v);
      AbstractAt(lib, items', v);
      if lib.uuidText(v) == lib.uuidText(u) {
        UuidTextInjective(lib, u, v);
      }
    }
  }

  /** At `v`, `after` is `before` without `u`. */
  predicate WithoutAt(before: Users, after: Users, u: Uuid, v: Uuid) {
    && (v in after <==> v in before && v != u)
    && (v in after ==> after[v] == before[v])
  }

  lemma WithoutEverywhere(before: Users, after: Users, u: Uuid)
    requires forall v: Uuid :: WithoutAt(before, after, u, v)
    ensures after == before - {u}
  {
    forall v: Uuid ensures v in after <==> v in before - {u} {
      assert WithoutAt(before, after, u, v);
    }
    forall v | v in after ensures after[v] == before[v] {
      assert WithoutAt(before, after, u, v);
    }
  }

  lemma RemovedAt(lib: Lib, items: Items, u: Uuid, v: Uuid)
    requires Lawful(lib)
    ensures WithoutAt(Abstract(lib, items), Abstract(lib, Remove(items, lib.uuidText(u))), u, v)
  {
    AbstractAt(lib, items, v);
    AbstractAt(lib, Remove(items, lib.uuidText(u)), v);
    if lib.uuidText(v) == lib.uuidText(u) {
      UuidTextInjective(lib, u, v);
    }
  }

  lemma AbstractRemove(lib: Lib, items: Items, u: Uuid)
    requires Lawful(lib)
    ensures Abstract(lib, Remove(items, lib.uuidText(u))) == Abstract(lib, items) - {u}
  {
    var before, after := Abstract(lib, items), Abstract(lib, Remove(items, lib.uuidText(u)));
    forall v: Uuid ensures WithoutAt(before, after, u, v) {
      RemovedAt(lib, items, u, v);
    }
    WithoutEverywhere(before, after, u);
  }

  /** Every stored key is the text of a user's identifier. */
  lemma KeyIsText(lib: Lib, items: Items, id: string) returns (u: Uuid)
    requires Lawful(lib) && WellFormed(lib, items) && id in items
    ensures lib.uuidText(u) == id && u in Abstract(lib, items)
  {
    assert WellFormedItem(lib, items[id]);
    u := lib.parseUuid(id).value;
    AbstractIs(lib, items, u);
  }

  lemma EmailTakenIs(lib: Lib, items: Items, email: Email)
    requires Lawful(lib) && WellFormed(lib, items)
    ensures EmailTaken(Abstract(lib, items), email) <==> HasEmail(items, email.text)
  {
    if HasEmail(items, email.text) {
      var id :| id in items && items[id].email == email.text;
      var u := KeyIsText(lib, items, id);
      AbstractIs(lib, items, u);
    }
    if EmailTaken(Abstract(lib, items), email) {
      var u :| u in Abstract(lib, items) && Abstract(lib, items)[u].email == email;
      AbstractIs(lib, items, u);
    }
  }

  lemma DocumentTakenIs(lib: Lib, items: Items, document: Document)
    requires Lawful(lib) && WellFormed(lib, items)
    ensures DocumentTaken(Abstract(lib, items), document) <==> HasDocument(items, document.value)
  {
    if HasDocument(items, document.value) {
      var id :| id in items && items[id].document == document.value;
      var u := KeyIsText(lib, items, id);
      AbstractIs(lib, items, u);
    }
    if DocumentTaken(Abstract(lib, items), document) {
      var u :| u in Abstract(lib, items) && Abstract(lib, items)[u].document == document;
      AbstractIs(lib, items, u);
    }
  }

  // ---- The simulation ----

  lemma CreateOutcome(lib: Lib, items: Items, input: CreateInput, env: Env)
    requires Lawful(lib) && WellFormed(lib, items) && GoodCreate(lib, input)
    ensures ExecCreate(lib, items, input, env).1 == PlainCreate(Abstract(lib, items), input, env).1
  {
    StrUtil.DigitsOfFixes(input.document.value);
    ExistsByEmailExact(lib, items, input.email.text, env.pick, env.id2, env.now);
    EmailTakenIs(lib, items, input.email);
    DocumentTakenIs(lib, items, input.document);
    CheckedNameRejects(input.name);
    AbstractIs(lib, items, env.newId);
  }

  lemma CreateResult(lib: Lib, items: Items, input: CreateInput, env: Env)
    requires Lawful(lib) && WellFormed(lib, items) && GoodCreate(lib, input) && env.newId != NIL_UUID
    requires NewUserOf(input, env).Some?
    ensures var u := NewUserOf(input, env).value;
      Abstract(lib, items[lib.uuidText(env.newId) := ToModel(lib, u)]) == Abstract(lib, items)[env.newId := u]
  {
    NewUserIsGood(lib, input, env);
    var u := NewUserOf(input, env).value;
    PutKeepsWellFormed(lib, items, u);
    AbstractPut(lib, items, u.id, ToModel(lib, u));
    ToModelIsWellFormed(lib, u);
    ToDomainOfWellFormed(lib, ToModel(lib, u), NIL_UUID, 0);
    EntityRoundTrip(lib, u, NIL_UUID, 0);
  }

  /** What PlainCreate and PlainUpdate leave, by their answer. */
  lemma PlainCreateLeaves(users: Users, input: CreateInput, env: Env)
    ensures var (users', outcome) := PlainCreate(users, input, env);
      && (outcome.Failure? ==> users' == users)
      && (outcome.Success? ==> NewUserOf(input, env).Some? && users' == users[env.newId := NewUserOf(input, env).value])
  {
    CheckedNameRejects(input.name);
  }

  lemma PlainUpdateLeaves(users: Users, input: UpdateInput, env: Env)
    ensures var (users', outcome) := PlainUpdate(users, input, env);
      && (outcome.Failure? ==> users' == users)
      && (outcome.Success? ==> input.id in users && users' == users[input.id := Replaced(users[input.id], input, env.touch)])
  {
  }

  lemma CreateSimulates(lib: Lib, items: Items, input: CreateInput, env: Env)
    requires Lawful(lib) && WellFormed(lib, items) && GoodCreate(lib, input) && env.newId != NIL_UUID
    ensures var (items', outcome) := ExecCreate(lib, items, input, env);
      (Abstract(lib, items'), outcome) == PlainCreate(Abstract(lib, items), input, env)
  {
    CreateOutcome(lib, items, input, env);
    CreateEffect(lib, items, input, env);
    PlainCreateLeaves(Abstract(lib, items), input, env);
    if PlainCreate(Abstract(lib, items), input, env).1.Success? {
      CreateResult(lib, items, input, env);
    }
  }

  lemma UpdatedIsReplaced(u: UserRecord, input: UpdateInput, touch: Touches)
    ensures Updated(u, input, touch)
         == if input.name.Some? && AllSpace(input.name.value) then None else Some(Replaced(u, input, touch))
  {
    if input.name.Some? {
      CheckedNameRejects(input.name.value);
    }
  }

  lemma UpdateOutcomeCases(lib: Lib, items: Items, users: Users, input: UpdateInput, env: Env)
    requires ReadByID(lib, items, input.id, env.id1, env.now)
          == if input.id in users then Some(users[input.id]) else None
    requires input.email.Some? ==>
      (EmailExists(lib, items, input.email.value.text, env.pick, env.id2, env.now)
        == EmailTaken(users, input.email.value))
    ensures ExecUpdate(lib, items, input, env).1 == PlainUpdate(users, input, env).1
  {
    if input.id in users {
      UpdatedIsReplaced(users[input.id], input, env.touch);
    }
  }

  lemma UpdateOutcome(lib: Lib, items: Items, input: UpdateInput, env: Env)
    requires Lawful(lib) && WellFormed(lib, items) && GoodUpdate(lib, input)
    ensures ExecUpdate(lib, items, input, env).1 == PlainUpdate(Abstract(lib, items), input, env).1
  {
    AbstractIs(lib, items, input.id);
    LoadedIsStored(lib, items, input.id, env);
    if input.email.Some? {
      ExistsByEmailExact(lib, items, input.email.value.text, env.pick, env.id2, env.now);
      EmailTakenIs(lib, items, input.email.value);
    }
    UpdateOutcomeCases(lib, items, Abstract(lib, items), input, env);
  }

  lemma UpdatedEntity(lib: Lib, m: Item, input: UpdateInput, touch: Touches)
    requires Lawful(lib) && WellFormedItem(lib, m) && GoodUpdate(lib, input) && Updated(Entity(lib, m), input, touch).Some?
    ensures Entity(lib, UpdatedItem(lib, m, input, touch)) == Updated(Entity(lib, m), input, touch).value
  {
    ToDomainOfWellFormed(lib, m, NIL_UUID, 0);
    UpdatedKeeps(lib, Entity(lib, m), input, touch);
    var u := Updated(Entity(lib, m), input, touch).value;
    assert lib.parseUuid(lib.uuidText(u.id)) == Parsed(u.id, true);
    assert lib.parseTime(lib.timeText(u.updatedAt)) == Parsed(u.updatedAt, true);
  }

  lemma UpdateResult(lib: Lib, items: Items, input: UpdateInput, touch: Touches)
    requires Lawful(lib) && WellFormed(lib, items) && GoodUpdate(lib, input) && lib.uuidText(input.id) in items
    requires Updated(Entity(lib, items[lib.uuidText(input.id)]), input, touch).Some?
    ensures var key := lib.uuidText(input.id);
      && input.id in Abstract(lib, items)
      && Abstract(lib, items[key := UpdatedItem(lib, items[key], input, touch)])
           == Abstract(lib, items)[input.id := Replaced(Abstract(lib, items)[input.id], input, touch)]
  {
    var key := lib.uuidText(input.id);
    AbstractIs(lib, items, input.id);
    UpdatedItemIsGood(lib, items[key], input, touch);
    AbstractPut(lib, items, input.id, UpdatedItem(lib, items[key], input, touch));
    UpdatedEntity(lib, items[key], input, touch);
    UpdatedIsReplaced(Entity(lib, items[key]), input, touch);
  }

  lemma UpdateSimulates(lib: Lib, items: Items, input: UpdateInput, env: Env)
    requires Lawful(lib) && WellFormed(lib, items) && GoodUpdate(lib, input)
    ensures var (items', outcome) := ExecUpdate(lib, items, input, env);
      (Abstract(lib, items'), outcome) == PlainUpdate(Abstract(lib, items), input, env)
  {
    UpdateOutcome(lib, items, input, env);
    UpdateEffect(lib, items, input, env);
    PlainUpdateLeaves(Abstract(lib, items), input, env);
    if UpdateAccepted(lib, items, input, env) {
      UpdateResult(lib, items, input, env.touch);
    }
  }

  /** One use case over the item table is the same use case over the map, with the same answer. */
  lemma ExecSimulates(lib: Lib, items: Items, r: Request)
    requires Lawful(lib) && WellFormed(lib, items) && GoodRequest(lib, r)
    ensures var (items', outcome) := Exec(lib, items, r);
      (Abstract(lib, items'), outcome) == PlainExec(Abstract(lib, items), r)
  {
    match r
    case Create(input, env) => CreateSimulates(lib, items, input, env);
    case Update(input, env) => UpdateSimulates(lib, items, input, env);
    case Delete(id, _) => AbstractRemove(lib, items, id);
  }

  /** Reading a user yields what the map holds, or that there is none. */
  lemma GetSimulates(lib: Lib, items: Items, id: Uuid, env: Env)
    requires Lawful(lib) && WellFormed(lib, items) && env.up1
    ensures ExecGet(lib, items, id, env) == PlainGet(Abstract(lib, items), id)
  {
    LoadedIsStored(lib, items, id, env);
    AbstractIs(lib, items, id);
  }

  /** A run and its answers, up to the last request and with it. */
  lemma LastStep(lib: Lib, items: Items, requests: seq<Request>)
    requires requests != []
    ensures var n := |requests| - 1;
      var (items', outcome) := Exec(lib, SerialRun(lib, items, requests[..n]), requests[n]);
      && SerialRun(lib, items, requests) == items'
      && Answers(lib, items, requests) == Answers(lib, items, requests[..n]) + [outcome]
  {
  }

  lemma PlainLastStep(users: Users, requests: seq<Request>)
    requires requests != []
    ensures var n := |requests| - 1;
      var (users', outcome) := PlainExec(PlainRun(users, requests[..n]), requests[n]);
      && PlainRun(users, requests) == users'
      && PlainAnswers(users, requests) == PlainAnswers(users, requests[..n]) + [outcome]
  {
  }

  lemma OneMoreSimulates(lib: Lib, items: Items, requests: seq<Request>)
    requires Lawful(lib) && StoreInvariant(lib, items) && GoodRequests(lib, requests) && requests != []
    requires var front := requests[..|requests| - 1];
      && Abstract(lib, SerialRun(lib, items, front)) == PlainRun(Abstract(lib, items), front)
      && Answers(lib, items, front) == PlainAnswers(Abstract(lib, items), front)
    ensures Abstract(lib, SerialRun(lib, items, requests)) == PlainRun(Abstract(lib, items), requests)
    ensures Answers(lib, items, requests) == PlainAnswers(Abstract(lib, items), requests)
  {
    var front, last := requests[..|requests| - 1], requests[|requests| - 1];
    SerialRunKeepsInvariant(lib, items, front);
    ExecSimulates(lib, SerialRun(lib, items, front), last);
    LastStep(lib, items, requests);
    PlainLastStep(Abstract(lib, items), requests);
  }

  /** A whole serial run over the item table is the same run over the map: it leaves the same users, and every
      request gets the same answer. */
  lemma {:induction false} RunSimulates(lib: Lib, items: Items, requests: seq<Request>)
    requires Lawful(lib) && StoreInvariant(lib, items) && GoodRequests(lib, requests)
    ensures Abstract(lib, SerialRun(lib, items, requests)) == PlainRun(Abstract(lib, items), requests)
    ensures Answers(lib, items, requests) == PlainAnswers(Abstract(lib, items), requests)
  {
    if requests != [] {
      RunSimulates(lib, items, requests[..|requests| - 1]);
      OneMoreSimulates(lib, items, requests);
    }
  }
}
