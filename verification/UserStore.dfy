/** The mapping between entities and stored items, and what each call of the user repository answers. */
module UserStore {
  import opened Prelude
  import opened Text
  import opened Library
  import opened Authz
  import opened UserDomain
  import opened Table

  // ---- The mapping ----

  function ToModel(lib: Lib, u: UserRecord): Item {
    Item(lib.uuidText(u.id), u.name, u.document.value, lib.documentType(u.document), u.email.text,
         u.phoneNumber.text, u.password.hash, u.roles, lib.timeText(u.createdAt), lib.timeText(u.updatedAt))
  }

  /** The entity an item stands for, or nothing. An identifier that does not parse is taken for the nil UUID, and
      NewUser then replaces it by a new one; errors of the value objects are dropped; NewUser's own timestamps are
      overwritten by the stored ones. */
  function ToDomain(lib: Lib, m: Item, newId: Uuid, now: Time): Option<UserRecord> {
    if m.id == "" then None
    else
      var parsed := lib.parseUuid(m.id);
      var id := if parsed.ok then parsed.value else NIL_UUID;
      var made := NewUserRecord(id, m.name, lib.newDocument(m.document).value, lib.newPhone(m.phoneNumber).value,
                                lib.newEmail(m.email).value, lib.fromHash(m.password).value,
                                NewRolesUnchecked(m.roles), newId, now);
      match made
      case None => None
      case Some(u) =>
        Some(u.(createdAt := lib.parseTime(m.createdAt).value, updatedAt := lib.parseTime(m.updatedAt).value))
  }

  /** An item that toDomain reads back in full, but for its creation time. */
  ghost predicate WellFormedItem(lib: Lib, m: Item) {
    && IsIdText(lib, m.id)
    && GoodName(m.name)
    && GoodDocument(lib, Document(m.document)) && m.documentType == lib.documentType(Document(m.document))
    && GoodEmail(lib, Email(m.email)) && GoodPhone(lib, PhoneNumber(m.phoneNumber))
    && GoodPassword(lib, Password(m.password))
    && ValidRoles(m.roles)
    && IsTimeText(lib, m.updatedAt)
  }

  /** The item carries its creation time. */
  ghost predicate Dated(lib: Lib, m: Item) {
    IsTimeText(lib, m.createdAt)
  }

  /** The entity of a well-formed item. */
  function Entity(lib: Lib, m: Item): UserRecord {
    UserRecord(lib.parseUuid(m.id).value, m.name, Document(m.document), Email(m.email), PhoneNumber(m.phoneNumber),
               Password(m.password), m.roles, lib.parseTime(m.createdAt).value, lib.parseTime(m.updatedAt).value)
  }

  /** On a well-formed item toDomain never answers nil, drops no error and keeps the identifier. */
  lemma ToDomainOfWellFormed(lib: Lib, m: Item, newId: Uuid, now: Time)
    requires Lawful(lib) && WellFormedItem(lib, m)
    ensures ToDomain(lib, m, newId, now) == Some(Entity(lib, m))
    ensures GoodUser(lib, Entity(lib, m))
  {
    assert m.id != "";
    assert CheckedName(m.name) == Some(m.name);
  }

  /** What is stored of an entity, attribute by attribute. */
  lemma ToModelHolds(lib: Lib, u: UserRecord)
    ensures var m := ToModel(lib, u);
      && m.id == lib.uuidText(u.id) && m.name == u.name && m.document == u.document.value
      && m.documentType == lib.documentType(u.document) && m.email == u.email.text
      && m.phoneNumber == u.phoneNumber.text && m.password == u.password.hash && m.roles == u.roles
      && m.createdAt == lib.timeText(u.createdAt) && m.updatedAt == lib.timeText(u.updatedAt)
  {
  }

  lemma ToModelIsWellFormed(lib: Lib, u: UserRecord)
    requires Lawful(lib) && GoodUser(lib, u)
    ensures WellFormedItem(lib, ToModel(lib, u)) && Dated(lib, ToModel(lib, u))
  {
    assert lib.parseUuid(lib.uuidText(u.id)) == Parsed(u.id, true);
    assert lib.parseTime(lib.timeText(u.createdAt)) == Parsed(u.createdAt, true);
    assert lib.parseTime(lib.timeText(u.updatedAt)) == Parsed(u.updatedAt, true);
  }

  /** Reading back what was written yields the same entity, times included. */
  lemma EntityRoundTrip(lib: Lib, u: UserRecord, newId: Uuid, now: Time)
    requires Lawful(lib) && GoodUser(lib, u)
    ensures ToDomain(lib, ToModel(lib, u), newId, now) == Some(u)
  {
    ToModelIsWellFormed(lib, u);
    ToDomainOfWellFormed(lib, ToModel(lib, u), newId, now);
    assert lib.parseUuid(lib.uuidText(u.id)) == Parsed(u.id, true);
    assert lib.parseTime(lib.timeText(u.createdAt)) == Parsed(u.createdAt, true);
    assert lib.parseTime(lib.timeText(u.updatedAt)) == Parsed(u.updatedAt, true);
  }

  /** Writing back what was read yields the same item exactly when the item carries its creation time. */
  lemma ItemRoundTrip(lib: Lib, m: Item, newId: Uuid, now: Time)
    requires Lawful(lib) && WellFormedItem(lib, m)
    ensures ToDomain(lib, m, newId, now).Some?
    ensures ToModel(lib, ToDomain(lib, m, newId, now).value) == m <==> Dated(lib, m)
  {
    ToDomainOfWellFormed(lib, m, newId, now);
    var t := lib.parseTime(m.createdAt).value;
    assert lib.parseTime(lib.timeText(t)) == Parsed(t, true);
  }

  /** What toDomain makes of any item that it does not drop, however badly formed: the errors of the value objects and
      of the times are dropped, and an identifier that cannot be read, or is nil, is replaced by a new one. */
  lemma ToDomainOfAny(lib: Lib, m: Item, newId: Uuid, now: Time)
    requires ToDomain(lib, m, newId, now).Some?
    ensures var u := ToDomain(lib, m, newId, now).value;
      var id := lib.parseUuid(m.id);
      && u.id == (if id.ok && id.value != NIL_UUID then id.value else newId)
      && u.name == TrimSpace(m.name) && u.document == lib.newDocument(m.document).value
      && u.email == lib.newEmail(m.email).value && u.phoneNumber == lib.newPhone(m.phoneNumber).value
      && u.password == lib.fromHash(m.password).value && u.roles == m.roles
      && u.createdAt == lib.parseTime(m.createdAt).value && u.updatedAt == lib.parseTime(m.updatedAt).value
  {
  }

  /** toDomain drops an item exactly when its identifier is missing or its name is blank. */
  lemma ToDomainDrops(lib: Lib, m: Item, newId: Uuid, now: Time)
    ensures ToDomain(lib, m, newId, now).None? <==> m.id == "" || AllSpace(m.name)
  {
    CheckedNameRejects(m.name);
  }

  // ---- The table seen through the mapping ----

  ghost predicate WellFormed(lib: Lib, items: Items) {
    Keyed(items) && forall id :: id in items ==> WellFormedItem(lib, items[id])
  }

  lemma PutKeepsWellFormed(lib: Lib, items: Items, u: UserRecord)
    requires Lawful(lib) && WellFormed(lib, items) && GoodUser(lib, u)
    ensures WellFormed(lib, items[lib.uuidText(u.id) := ToModel(lib, u)])
  {
    ToModelIsWellFormed(lib, u);
  }

  lemma UpsertKeepsWellFormed(lib: Lib, items: Items, u: UserRecord)
    requires Lawful(lib) && WellFormed(lib, items) && GoodUser(lib, u)
    ensures WellFormed(lib, Upsert(items, ToModel(lib, u)))
  {
    ToModelIsWellFormed(lib, u);
  }

  ghost predicate HasEmail(items: Items, email: string) {
    exists id :: id in items && items[id].email == email
  }

  ghost predicate HasDocument(items: Items, document: string) {
    exists id :: id in items && items[id].document == document
  }

  // ---- What each repository call answers and leaves behind ----

  ghost function ReadByID(lib: Lib, items: Items, id: Uuid, newId: Uuid, now: Time): Option<UserRecord> {
    var key := lib.uuidText(id);
    if key in items then ToDomain(lib, items[key], newId, now) else None
  }

  ghost function ReadByEmail(lib: Lib, items: Items, email: string, pick: string, newId: Uuid, now: Time)
    : Option<UserRecord>
  {
    match QueryOne(items, ByEmail, email, pick)
    case None => None
    case Some(m) => ToDomain(lib, m, newId, now)
  }

  ghost predicate EmailExists(lib: Lib, items: Items, email: string, pick: string, newId: Uuid, now: Time) {
    ReadByEmail(lib, items, email, pick, newId, now).Some?
  }

  ghost predicate DocumentExists(items: Items, document: string, pick: string) {
    QueryOne(items, ByDocument, document, pick).Some?
  }

  /** On a well-formed table the email check answers exactly whether the email is stored, whichever of several
      matching items the database returns. */
  lemma ExistsByEmailExact(lib: Lib, items: Items, email: string, pick: string, newId: Uuid, now: Time)
    requires Lawful(lib) && WellFormed(lib, items)
    ensures EmailExists(lib, items, email, pick, newId, now) <==> HasEmail(items, email)
  {
    var answer := QueryOne(items, ByEmail, email, pick);
    if answer.Some? {
      ToDomainOfWellFormed(lib, answer.value, newId, now);
    }
  }

  /** When no other item holds the email, reading by email yields the holder, whichever item the query would pick. */
  lemma ReadByEmailExact(lib: Lib, items: Items, id: string, pick: string, newId: Uuid, now: Time)
    requires Lawful(lib) && WellFormed(lib, items) && id in items
    requires forall other :: other in items && items[other].email == items[id].email ==> other == id
    ensures ReadByEmail(lib, items, items[id].email, pick, newId, now) == Some(Entity(lib, items[id]))
  {
    ToDomainOfWellFormed(lib, items[id], newId, now);
  }

  lemma ExistsByDocumentExact(items: Items, document: string, pick: string)
    ensures DocumentExists(items, document, pick) <==> HasDocument(items, document)
  {
  }

  /** The email check misses a stored email when the only item that holds it has a blank name: the check needs
      the name rule of the entity. */
  lemma ExistsByEmailNeedsNames(lib: Lib, m: Item, pick: string, newId: Uuid, now: Time)
    ensures EmailExists(lib, map[m.id := m], m.email, pick, newId, now) <==> m.id != "" && !AllSpace(m.name)
  {
    ToDomainDrops(lib, m, newId, now);
    var items := map[m.id := m];
    assert m.id in items;
    assert QueryOne(items, ByEmail, m.email, pick) == Some(m);
  }

  function EffectiveLimit(limit: int): nat {
    if limit <= 0 then 50 else limit
  }

  /** The entities of the items that have one, in order. */
  function Readable(lib: Lib, models: seq<Item>, newId: Uuid, now: Time): seq<UserRecord> {
    if models == [] then []
    else
      var rest := Readable(lib, models[..|models| - 1], newId, now);
      match ToDomain(lib, models[|models| - 1], newId, now)
      case None => rest
      case Some(u) => rest + [u]
  }

  lemma ReadableNext(lib: Lib, models: seq<Item>, i: nat, newId: Uuid, now: Time)
    requires i < |models|
    ensures var u := ToDomain(lib, models[i], newId, now);
      Readable(lib, models[..i + 1], newId, now)
        == Readable(lib, models[..i], newId, now) + if u.Some? then [u.value] else []
  {
    assert models[..i + 1][..i] == models[..i];
  }

  /** Exactly the entities that some item stands for are listed. */
  lemma {:induction false} ReadableHolds(lib: Lib, models: seq<Item>, newId: Uuid, now: Time, u: UserRecord)
    ensures u in Readable(lib, models, newId, now)
       <==> exists i :: 0 <= i < |models| && ToDomain(lib, models[i], newId, now) == Some(u)
  {
    if models != [] {
      var n := |models| - 1;
      var front := models[..n];
      ReadableHolds(lib, front, newId, now, u);
      assert models[..n + 1] == models;
      ReadableNext(lib, models, n, newId, now);
      assert forall i :: 0 <= i < n ==> front[i] == models[i];
    }
  }

  /** Listing well-formed items drops none of them. */
  lemma {:induction false} ListDropsNothing(lib: Lib, models: seq<Item>, newId: Uuid, now: Time)
    requires Lawful(lib) && forall i :: 0 <= i < |models| ==> WellFormedItem(lib, models[i])
    ensures |Readable(lib, models, newId, now)| == |models|
    ensures forall i :: 0 <= i < |models| ==> Readable(lib, models, newId, now)[i] == Entity(lib, models[i])
  {
    if models != [] {
      ListDropsNothing(lib, models[..|models| - 1], newId, now);
      ToDomainOfWellFormed(lib, models[|models| - 1], newId, now);
    }
  }
}
