/** Serial runs: whole use cases one after the other, in any order and number. */
module Serial {
  import opened Prelude
  import opened Text
  import opened Library
  import opened Authz
  import opened UserDomain
  import opened Table
  import opened UserStore
  import opened UseCases

  /** The table after the requests have run, the last of `requests` last. */
  ghost function SerialRun(lib: Lib, items: Items, requests: seq<Request>): Items {
    if requests == [] then items
    else Exec(lib, SerialRun(lib, items, requests[..|requests| - 1]), requests[|requests| - 1]).0
  }

  /** What the requests answer, in order. */
  ghost function Answers(lib: Lib, items: Items, requests: seq<Request>): (r: seq<Outcome>)
    ensures |r| == |requests|
  {
    if requests == [] then []
    else
      var n := |requests| - 1;
      Answers(lib, items, requests[..n]) + [Exec(lib, SerialRun(lib, items, requests[..n]), requests[n]).1]
  }

  ghost predicate GoodRequests(lib: Lib, requests: seq<Request>) {
    forall i :: 0 <= i < |requests| ==> GoodRequest(lib, requests[i])
  }

  // ---- Uniqueness ----

  /** No two stored items share an email and no two share a document. */
  ghost predicate Unique(items: Items) {
    forall j, k :: j in items && k in items
        && (items[j].email == items[k].email || items[j].document == items[k].document)
      ==> j == k
  }

  ghost predicate AllDated(lib: Lib, items: Items) {
    forall id :: id in items ==> Dated(lib, items[id])
  }

  /** What every serial run keeps. Uniqueness alone is not kept: the email check of the next request sees only
      items that toDomain can read. */
  ghost predicate StoreInvariant(lib: Lib, items: Items) {
    WellFormed(lib, items) && AllDated(lib, items) && Unique(items)
  }

  /** Writing `m` keeps a table free of duplicates exactly when no other item holds its email or its document. */
  lemma InsertKeepsUnique(items: Items, key: string, m: Item)
    requires Unique(items)
    ensures Unique(items[key := m])
       <==> forall id :: id in items && id != key ==> items[id].email != m.email && items[id].document != m.document
  {
    var items' := items[key := m];
    assert items'[key] == m;
    forall id | id in items && id != key && Unique(items')
      ensures items[id].email != m.email && items[id].document != m.document
    {
      assert items'[id] == items[id];
    }
  }

  lemma UpdatedItemIsGood(lib: Lib, m: Item, input: UpdateInput, touch: Touches)
    requires Lawful(lib) && WellFormedItem(lib, m) && GoodUpdate(lib, input)
    requires Updated(Entity(lib, m), input, touch).Some?
    ensures var m' := UpdatedItem(lib, m, input, touch);
      && WellFormedItem(lib, m') && m'.id == m.id && m'.document == m.document && m'.createdAt == m.createdAt
      && (m'.email == m.email || (input.email.Some? && m'.email == input.email.value.text != m.email))
  {
    ToDomainOfWellFormed(lib, m, 0, 0);
    var u := Entity(lib, m);
    ChangeFieldsKeeps(lib, u, input, touch);
    UpdatedKeeps(lib, u, input, touch);
    ToModelIsWellFormed(lib, Updated(u, input, touch).value);
  }

  lemma InsertKeepsInvariant(lib: Lib, items: Items, key: string, m: Item)
    requires StoreInvariant(lib, items) && WellFormedItem(lib, m) && Dated(lib, m) && m.id == key
    requires forall id :: id in items && id != key ==> items[id].email != m.email && items[id].document != m.document
    ensures StoreInvariant(lib, items[key := m])
  {
    InsertKeepsUnique(items, key, m);
  }

  lemma CreateKeepsInvariant(lib: Lib, items: Items, input: CreateInput, env: Env)
    requires Lawful(lib) && StoreInvariant(lib, items) && GoodCreate(lib, input) && env.newId != NIL_UUID
    ensures StoreInvariant(lib, ExecCreate(lib, items, input, env).0)
  {
    CreateEffect(lib, items, input, env);
    if CreateAccepted(lib, items, input, env) {
      NewUserIsGood(lib, input, env);
      var u := NewUserOf(input, env).value;
      ToModelIsWellFormed(lib, u);
      InsertKeepsInvariant(lib, items, lib.uuidText(u.id), ToModel(lib, u));
    }
  }

  lemma ReplaceKeepsInvariant(lib: Lib, items: Items, input: UpdateInput, touch: Touches)
    requires Lawful(lib) && StoreInvariant(lib, items) && GoodUpdate(lib, input) && lib.uuidText(input.id) in items
    requires var m := items[lib.uuidText(input.id)];
      && Updated(Entity(lib, m), input, touch).Some?
      && (input.email.Some? && input.email.value.text != m.email ==> !HasEmail(items, input.email.value.text))
    ensures var key := lib.uuidText(input.id);
      StoreInvariant(lib, items[key := UpdatedItem(lib, items[key], input, touch)])
  {
    var key := lib.uuidText(input.id);
    UpdatedItemIsGood(lib, items[key], input, touch);
    InsertKeepsInvariant(lib, items, key, UpdatedItem(lib, items[key], input, touch));
  }

  lemma UpdateKeepsInvariant(lib: Lib, items: Items, input: UpdateInput, env: Env)
    requires Lawful(lib) && StoreInvariant(lib, items) && GoodUpdate(lib, input)
    ensures StoreInvariant(lib, ExecUpdate(lib, items, input, env).0)
  {
    UpdateEffect(lib, items, input, env);
    if UpdateAccepted(lib, items, input, env) {
      ReplaceKeepsInvariant(lib, items, input, env.touch);
    }
  }

  lemma ExecKeepsInvariant(lib: Lib, items: Items, r: Request)
    requires Lawful(lib) && StoreInvariant(lib, items) && GoodRequest(lib, r)
    ensures StoreInvariant(lib, Exec(lib, items, r).0)
  {
    match r
    case Create(input, env) => CreateKeepsInvariant(lib, items, input, env);
    case Update(input, env) => UpdateKeepsInvariant(lib, items, input, env);
    case Delete(_, _) =>
  }

  /** Every serial run keeps the invariant. */
  lemma {:induction false} SerialRunKeepsInvariant(lib: Lib, items: Items, requests: seq<Request>)
    requires Lawful(lib) && StoreInvariant(lib, items) && GoodRequests(lib, requests)
    ensures StoreInvariant(lib, SerialRun(lib, items, requests))
  {
    if requests != [] {
      var before := requests[..|requests| - 1];
      SerialRunKeepsInvariant(lib, items, before);
      ExecKeepsInvariant(lib, SerialRun(lib, items, before), requests[|requests| - 1]);
    }
  }

  /** From an empty table, no serial run ever stores an email or a document twice. */
  lemma UniquenessOverRuns(lib: Lib, requests: seq<Request>)
    requires Lawful(lib) && GoodRequests(lib, requests)
    ensures Unique(SerialRun(lib, map[], requests))
  {
    SerialRunKeepsInvariant(lib, map[], requests);
  }

  // ---- Last writer wins, field by field ----

  datatype Field = NameField | PhoneField | EmailField | PasswordField | RolesField

  /** What an update supplies for a field, as it will be stored. */
  function Supplied(input: UpdateInput, field: Field): Option<seq<string>> {
    match field
    case NameField => if input.name.Some? then Some([TrimSpace(input.name.value)]) else None
    case PhoneField => if input.phoneNumber.Some? then Some([input.phoneNumber.value.text]) else None
    case EmailField => if input.email.Some? then Some([input.email.value.text]) else None
    case PasswordField => if input.password.Some? then Some([input.password.value.hash]) else None
    case RolesField => input.roles
  }

  function Stored(m: Item, field: Field): seq<string> {
    match field
    case NameField => [m.name]
    case PhoneField => [m.phoneNumber]
    case EmailField => [m.email]
    case PasswordField => [m.password]
    case RolesField => m.roles
  }

  /** An accepted update stores what it supplies and leaves every other field alone. */
  lemma UpdatedFields(lib: Lib, m: Item, input: UpdateInput, touch: Touches, field: Field)
    requires Updated(Entity(lib, m), input, touch).Some?
    ensures Stored(UpdatedItem(lib, m, input, touch), field)
         == if Supplied(input, field).Some? then Supplied(input, field).value else Stored(m, field)
  {
    var u := Updated(Entity(lib, m), input, touch).value;
    match field
    case NameField =>
      assert u.name == if input.name.Some? then TrimSpace(input.name.value) else m.name;
    case PhoneField =>
      assert u.phoneNumber.text == if input.phoneNumber.Some? then input.phoneNumber.value.text else m.phoneNumber;
    case EmailField =>
      assert u.email.text == if input.email.Some? then input.email.value.text else m.email;
    case PasswordField =>
      assert u.password.hash == if input.password.Some? then input.password.value.hash else m.password;
    case RolesField =>
      assert u.roles == if input.roles.Some? then input.roles.value else m.roles;
  }

  /** The item an accepted update leaves, attribute by attribute. */
  lemma UpdatedItemHolds(lib: Lib, m: Item, input: UpdateInput, touch: Touches)
    requires Updated(Entity(lib, m), input, touch).Some?
    ensures var m' := UpdatedItem(lib, m, input, touch);
      && m'.name == (if input.name.Some? then TrimSpace(input.name.value) else m.name)
      && m'.phoneNumber == (if input.phoneNumber.Some? then input.phoneNumber.value.text else m.phoneNumber)
      && m'.email == (if input.email.Some? then input.email.value.text else m.email)
      && m'.password == (if input.password.Some? then input.password.value.hash else m.password)
      && m'.roles == (if input.roles.Some? then input.roles.value else m.roles)
  {
    var m' := UpdatedItem(lib, m, input, touch);
    forall field ensures Stored(m', field)
      == if Supplied(input, field).Some? then Supplied(input, field).value else Stored(m, field)
    {
      UpdatedFields(lib, m, input, touch, field);
    }
    assert Stored(m', NameField) == [m'.name] && Stored(m', PhoneField) == [m'.phoneNumber];
    assert Stored(m', EmailField) == [m'.email] && Stored(m', PasswordField) == [m'.password];
    assert Stored(m', RolesField) == m'.roles;
  }

  /** On this table the request is an accepted update of user `id` that supplies the field. */
  ghost predicate Writes(lib: Lib, items: Items, r: Request, id: Uuid, field: Field) {
    r.Update? && r.update.id == id && Supplied(r.update, field).Some? && Exec(lib, items, r).1.Success?
  }

  /** The item `m` is still the same user's: same identifier, document and creation time. */
  predicate SameUser(m: Item, m': Item) {
    m'.id == m.id && m'.document == m.document && m'.createdAt == m.createdAt
  }

  /** What an update does to the stored item of user `id`, whoever it is about. */
  lemma UpdateOneStep(lib: Lib, items: Items, input: UpdateInput, env: Env, id: Uuid, field: Field)
    requires Lawful(lib) && WellFormed(lib, items) && GoodUpdate(lib, input) && lib.uuidText(id) in items
    ensures var (items', outcome) := ExecUpdate(lib, items, input, env);
      var key := lib.uuidText(id);
      && key in items' && SameUser(items[key], items'[key])
      && Stored(items'[key], field)
           == if input.id == id && Supplied(input, field).Some? && outcome.Success? then Supplied(input, field).value
              else Stored(items[key], field)
  {
    var key := lib.uuidText(id);
    UpdateEffect(lib, items, input, env);
    if UpdateAccepted(lib, items, input, env) && lib.uuidText(input.id) == key {
      UuidTextInjective(lib, input.id, id);
      UpdatedItemIsGood(lib, items[key], input, env.touch);
      UpdatedFields(lib, items[key], input, env.touch, field);
    }
  }

  lemma CreateOneStep(lib: Lib, items: Items, input: CreateInput, env: Env, key: string)
    requires Lawful(lib) && WellFormed(lib, items) && GoodCreate(lib, input) && key in items
    ensures var items' := ExecCreate(lib, items, input, env).0; key in items' && items'[key] == items[key]
  {
    CreateEffect(lib, items, input, env);
  }

  lemma DeleteOneStep(lib: Lib, items: Items, other: Uuid, env: Env, id: Uuid)
    requires Lawful(lib) && lib.uuidText(id) in items && other != id
    ensures var items' := ExecDelete(lib, items, other, env).0;
      lib.uuidText(id) in items' && items'[lib.uuidText(id)] == items[lib.uuidText(id)]
  {
    if lib.uuidText(other) == lib.uuidText(id) {
      UuidTextInjective(lib, other, id);
    }
  }

  predicate Deletes(r: Request, id: Uuid) {
    r.Delete? && r.id == id
  }

  /** What one request does to the stored item of a user it does not delete. */
  lemma OneStep(lib: Lib, items: Items, r: Request, id: Uuid, field: Field)
    requires Lawful(lib) && WellFormed(lib, items) && GoodRequest(lib, r)
    requires lib.uuidText(id) in items && !Deletes(r, id)
    ensures var items' := Exec(lib, items, r).0;
      var key := lib.uuidText(id);
      && key in items' && SameUser(items[key], items'[key])
      && Stored(items'[key], field)
           == if Writes(lib, items, r, id, field) then Supplied(r.update, field).value else Stored(items[key], field)
  {
    match r
    case Create(input, env) => CreateOneStep(lib, items, input, env, lib.uuidText(id));
    case Update(input, env) => UpdateOneStep(lib, items, input, env, id, field);
    case Delete(other, env) => DeleteOneStep(lib, items, other, env, id);
  }

  ghost function SuppliedBy(lib: Lib, items: Items, r: Request, id: Uuid, field: Field): Option<seq<string>> {
    if Writes(lib, items, r, id, field) then Supplied(r.update, field) else None
  }

  /** For each request of the run, what it supplied for the field when it was an accepted update of the user. */
  ghost function Supplies(lib: Lib, items: Items, requests: seq<Request>, id: Uuid, field: Field)
    : (r: seq<Option<seq<string>>>)
    ensures |r| == |requests|
  {
    if requests == [] then []
    else
      var n := |requests| - 1;
      Supplies(lib, items, requests[..n], id, field)
        + [SuppliedBy(lib, SerialRun(lib, items, requests[..n]), requests[n], id, field)]
  }

  lemma SuppliesFront(lib: Lib, items: Items, requests: seq<Request>, id: Uuid, field: Field, i: nat)
    requires i < |requests| - 1
    ensures Supplies(lib, items, requests, id, field)[i]
         == Supplies(lib, items, requests[..|requests| - 1], id, field)[i]
  {
  }

  lemma SuppliesLast(lib: Lib, items: Items, requests: seq<Request>, id: Uuid, field: Field)
    requires requests != []
    ensures var n := |requests| - 1;
      Supplies(lib, items, requests, id, field)[n]
        == SuppliedBy(lib, SerialRun(lib, items, requests[..n]), requests[n], id, field)
  {
  }

  lemma SuppliedByFront(lib: Lib, items: Items, requests: seq<Request>, id: Uuid, field: Field, i: nat)
    requires i < |requests| - 1
    ensures var front := requests[..|requests| - 1];
      SuppliedBy(lib, SerialRun(lib, items, front[..i]), front[i], id, field)
        == SuppliedBy(lib, SerialRun(lib, items, requests[..i]), requests[i], id, field)
  {
    assert requests[..|requests| - 1][..i] == requests[..i];
  }

  /** Supplies by position: the i-th entry depends on the table that the i requests before it left. */
  lemma {:induction false} SuppliesAt(lib: Lib, items: Items, requests: seq<Request>, id: Uuid, field: Field, i: nat)
    requires i < |requests|
    ensures Supplies(lib, items, requests, id, field)[i]
         == SuppliedBy(lib, SerialRun(lib, items, requests[..i]), requests[i], id, field)
  {
    if i < |requests| - 1 {
      SuppliesFront(lib, items, requests, id, field, i);
      SuppliesAt(lib, items, requests[..|requests| - 1], id, field, i);
      SuppliedByFront(lib, items, requests, id, field, i);
    } else {
      SuppliesLast(lib, items, requests, id, field);
    }
  }

  /** The last value of a list of optional values, or `initial` when there is none. */
  function LastOf<V>(values: seq<Option<V>>, initial: V): V {
    if values == [] then initial
    else if values[|values| - 1].Some? then values[|values| - 1].value
    else LastOf(values[..|values| - 1], initial)
  }

  lemma {:induction false} LastOfIsLast<V>(values: seq<Option<V>>, initial: V)
    ensures (forall i :: 0 <= i < |values| ==> values[i].None?) ==> LastOf(values, initial) == initial
    ensures forall i :: 0 <= i < |values| && values[i].Some? && (forall j :: i < j < |values| ==> values[j].None?) ==>
      LastOf(values, initial) == values[i].value
  {
    if values != [] {
      LastOfIsLast(values[..|values| - 1], initial);
    }
  }

  /** After any serial run that does not delete the user, whatever else it does, each field holds what the last
      accepted update that supplied it supplied, or what it held at first when none did; the identifier, the
      document and the creation time are as they were. */
  lemma {:induction false} LastWriterWins(lib: Lib, items: Items, requests: seq<Request>, id: Uuid, field: Field)
    requires Lawful(lib) && StoreInvariant(lib, items) && GoodRequests(lib, requests)
    requires lib.uuidText(id) in items
    requires forall i :: 0 <= i < |requests| ==> !Deletes(requests[i], id)
    ensures var after := SerialRun(lib, items, requests);
      var key := lib.uuidText(id);
      && key in after && SameUser(items[key], after[key])
      && Stored(after[key], field) == LastOf(Supplies(lib, items, requests, id, field), Stored(items[key], field))
  {
    if requests != [] {
      var n := |requests| - 1;
      var before := requests[..n];
      LastWriterWins(lib, items, before, id, field);
      SerialRunKeepsInvariant(lib, items, before);
      OneStep(lib, SerialRun(lib, items, before), requests[n], id, field);
      var supplies := Supplies(lib, items, requests, id, field);
      assert supplies[..n] == Supplies(lib, items, before, id, field);
    }
  }

  // ---- Time order ----

  function TimeOf(lib: Lib, text: string): Time {
    lib.parseTime(text).value
  }

  /** The request's clock readings do not go back, and none is before `from`. */
  predicate ClockFrom(r: Request, from: Time) {
    match r
    case Create(_, env) => from <= env.now
    case Update(_, env) =>
      from <= env.touch.name <= env.touch.phoneNumber <= env.touch.password <= env.touch.roles <= env.touch.email
    case Delete(_, _) => true
  }

  /** The last reading of a request that starts no earlier than `from`. */
  function ClockAfter(r: Request, from: Time): Time {
    match r
    case Create(_, env) => env.now
    case Update(_, env) => env.touch.email
    case Delete(_, _) => from
  }

  function ClockEnd(requests: seq<Request>, from: Time): Time {
    if requests == [] then from else ClockAfter(requests[|requests| - 1], ClockEnd(requests[..|requests| - 1], from))
  }

  /** The clock never goes back over the whole run. */
  predicate ClockForward(requests: seq<Request>, from: Time) {
    requests == [] ||
    (ClockForward(requests[..|requests| - 1], from)
      && ClockFrom(requests[|requests| - 1], ClockEnd(requests[..|requests| - 1], from)))
  }

  /** Every item was created no later than it was last updated, and that no later than `now`. */
  ghost predicate TimesOrdered(lib: Lib, items: Items, now: Time) {
    forall id :: id in items ==> TimeOf(lib, items[id].createdAt) <= TimeOf(lib, items[id].updatedAt) <= now
  }

  lemma UpdatedTime(lib: Lib, m: Item, input: UpdateInput, touch: Touches, from: Time)
    requires Lawful(lib) && Updated(Entity(lib, m), input, touch).Some?
    requires TimeOf(lib, m.updatedAt) <= from
    requires from <= touch.name <= touch.phoneNumber <= touch.password <= touch.roles <= touch.email
    ensures TimeOf(lib, m.updatedAt) <= TimeOf(lib, UpdatedItem(lib, m, input, touch).updatedAt) <= touch.email
  {
    var u := Updated(Entity(lib, m), input, touch).value;
    assert lib.parseTime(lib.timeText(u.updatedAt)) == Parsed(u.updatedAt, true);
  }

  ghost predicate TimesForward(lib: Lib, items: Items, items': Items) {
    forall id :: id in items && id in items' ==>
      && items'[id].createdAt == items[id].createdAt
      && TimeOf(lib, items[id].updatedAt) <= TimeOf(lib, items'[id].updatedAt)
  }

  lemma InsertKeepsTimes(lib: Lib, items: Items, key: string, m: Item, from: Time, now: Time)
    requires TimesOrdered(lib, items, from) && from <= now
    requires TimeOf(lib, m.createdAt) <= TimeOf(lib, m.updatedAt) <= now
    requires key in items ==>
      m.createdAt == items[key].createdAt && TimeOf(lib, items[key].updatedAt) <= TimeOf(lib, m.updatedAt)
    ensures TimesOrdered(lib, items[key := m], now) && TimesForward(lib, items, items[key := m])
  {
  }

  lemma UpdateKeepsTimes(lib: Lib, items: Items, input: UpdateInput, env: Env, from: Time)
    requires Lawful(lib) && WellFormed(lib, items) && GoodUpdate(lib, input)
    requires TimesOrdered(lib, items, from) && ClockFrom(Update(input, env), from)
    ensures var items' := ExecUpdate(lib, items, input, env).0;
      TimesOrdered(lib, items', env.touch.email) && TimesForward(lib, items, items')
  {
    UpdateEffect(lib, items, input, env);
    if UpdateAccepted(lib, items, input, env) {
      var key := lib.uuidText(input.id);
      UpdatedTime(lib, items[key], input, env.touch, from);
      InsertKeepsTimes(lib, items, key, UpdatedItem(lib, items[key], input, env.touch), from, env.touch.email);
    }
  }

  lemma CreateKeepsTimes(lib: Lib, items: Items, input: CreateInput, env: Env, from: Time)
    requires Lawful(lib) && WellFormed(lib, items) && GoodCreate(lib, input)
    requires TimesOrdered(lib, items, from) && from <= env.now
    ensures var items' := ExecCreate(lib, items, input, env).0;
      TimesOrdered(lib, items', env.now) && TimesForward(lib, items, items')
  {
    CreateEffect(lib, items, input, env);
    if CreateAccepted(lib, items, input, env) {
      assert lib.parseTime(lib.timeText(env.now)) == Parsed(env.now, true);
      InsertKeepsTimes(lib, items, lib.uuidText(env.newId), ToModel(lib, NewUserOf(input, env).value), from, env.now);
    }
  }

  /** One request keeps the order of times, and never sets back the update time of a user who stays. */
  lemma ExecKeepsTimes(lib: Lib, items: Items, r: Request, from: Time)
    requires Lawful(lib) && WellFormed(lib, items) && GoodRequest(lib, r)
    requires TimesOrdered(lib, items, from) && ClockFrom(r, from)
    ensures var items' := Exec(lib, items, r).0;
      TimesOrdered(lib, items', ClockAfter(r, from)) && TimesForward(lib, items, items')
  {
    match r
    case Create(input, env) => CreateKeepsTimes(lib, items, input, env, from);
    case Update(input, env) => UpdateKeepsTimes(lib, items, input, env, from);
    case Delete(_, _) =>
  }

  /** Over every serial run whose clock never goes back, every user was created no later than last updated. */
  lemma {:induction false} TimeOrderOverRuns(lib: Lib, items: Items, requests: seq<Request>, from: Time)
    requires Lawful(lib) && StoreInvariant(lib, items) && GoodRequests(lib, requests)
    requires TimesOrdered(lib, items, from) && ClockForward(requests, from)
    ensures TimesOrdered(lib, SerialRun(lib, items, requests), ClockEnd(requests, from))
  {
    if requests != [] {
      var n := |requests| - 1;
      TimeOrderOverRuns(lib, items, requests[..n], from);
      SerialRunKeepsInvariant(lib, items, requests[..n]);
      ExecKeepsTimes(lib, SerialRun(lib, items, requests[..n]), requests[n], ClockEnd(requests[..n], from));
    }
  }

  /** The user is stored at every moment of the run. */
  ghost predicate StoredThroughout(lib: Lib, items: Items, requests: seq<Request>, id: string) {
    forall i :: 0 <= i <= |requests| ==> id in SerialRun(lib, items, requests[..i])
  }

  /** Over such a run, a user who is stored all along keeps the creation time, and the update time is not set back. */
  lemma {:induction false} UpdateTimeNeverDecreases(lib: Lib, items: Items, requests: seq<Request>, from: Time, id: string)
    requires Lawful(lib) && StoreInvariant(lib, items) && GoodRequests(lib, requests)
    requires TimesOrdered(lib, items, from) && ClockForward(requests, from)
    requires StoredThroughout(lib, items, requests, id)
    ensures var after := SerialRun(lib, items, requests);
      && id in items && id in after
      && after[id].createdAt == items[id].createdAt
      && TimeOf(lib, items[id].updatedAt) <= TimeOf(lib, after[id].updatedAt)
  {
    assert requests[..|requests|] == requests;
    assert id in SerialRun(lib, items, requests[..0]) && id in SerialRun(lib, items, requests[..|requests|]);
    if requests != [] {
      var n := |requests| - 1;
      var before := requests[..n];
      forall i | 0 <= i <= |before| ensures id in SerialRun(lib, items, before[..i]) {
        assert before[..i] == requests[..i];
      }
      UpdateTimeNeverDecreases(lib, items, before, from, id);
      TimeOrderOverRuns(lib, items, before, from);
      SerialRunKeepsInvariant(lib, items, before);
      ExecKeepsTimes(lib, SerialRun(lib, items, before), requests[n], ClockEnd(before, from));
    }
  }

  /** An update that supplies nothing new leaves the whole table as it was, update time included. */
  lemma IdleUpdate(lib: Lib, items: Items, input: UpdateInput, env: Env)
    requires Lawful(lib) && WellFormed(lib, items) && lib.uuidText(input.id) in items
    requires input.name.None? && input.phoneNumber.None? && input.password.None? && input.roles.None?
    requires input.email.Some? ==> input.email.value.text == items[lib.uuidText(input.id)].email
    ensures ExecUpdate(lib, items, input, env).0 == items
  {
    LoadedIsStored(lib, items, input.id, env);
    var m := items[lib.uuidText(input.id)];
    assert ChangeFields(Entity(lib, m), input, env.touch) == Some(Entity(lib, m));
    assert ToModel(lib, Entity(lib, m)).(createdAt := m.createdAt) == m;
  }
}
