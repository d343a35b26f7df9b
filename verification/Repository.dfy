/** The user repository: the database calls around the mapping. */
module Repository {
  import opened Prelude
  import opened Library
  import opened Authz
  import opened UserDomain
  import opened Table
  import opened UserStore

  class UserRepository {
    const lib: Lib
    const table: UserTable

    constructor (lib: Lib, table: UserTable)
      ensures this.lib == lib && this.table == table
    {
      this.lib, this.table := lib, table;
    }

    /** `up` says whether the database answers; when it does not, nothing has changed. */
    method Create(u: User, up: bool) returns (r: Outcome)
      requires table.Valid()
      modifies table
      ensures table.Valid()
      ensures r == if !up then Failure(ClientError)
                   else if lib.uuidText(u.id) in old(table.items) then Failure(UserAlreadyExists)
                   else Success
      ensures table.items == if up then PutIfAbsent(old(table.items), ToModel(lib, old(u.Value()))) else old(table.items)
    {
      var model := Marshal(u);
      if !up {
        return Failure(ClientError);
      }
      var held := table.PutItem(model);
      return if held then Success else Failure(UserAlreadyExists);
    }

    method Marshal(u: User) returns (model: Item)
      ensures model == ToModel(lib, u.Value())
    {
      model := Item(lib.uuidText(u.id), u.name, u.document.value, lib.documentType(u.document), u.email.text,
                    u.phoneNumber.text, u.password.hash, u.roles, lib.timeText(u.createdAt), lib.timeText(u.updatedAt));
    }

    method Update(u: User, up: bool) returns (r: Outcome)
      requires table.Valid()
      modifies table
      ensures table.Valid()
      ensures r == if up then Success else Failure(ClientError)
      ensures table.items == if up then Upsert(old(table.items), ToModel(lib, old(u.Value()))) else old(table.items)
    {
      var model := Marshal(u);
      if !up {
        return Failure(ClientError);
      }
      table.UpdateItem(model);
      return Success;
    }

    method Delete(id: Uuid, up: bool) returns (r: Outcome)
      requires table.Valid()
      modifies table
      ensures table.Valid()
      ensures r == if up then Success else Failure(ClientError)
      ensures table.items == if up then Remove(old(table.items), lib.uuidText(id)) else old(table.items)
    {
      if !up {
        return Failure(ClientError);
      }
      table.DeleteItem(lib.uuidText(id));
      return Success;
    }

    /** toDomain: builds a new object and overwrites its timestamps with the stored ones. */
    method Unmarshal(m: Item, newId: Uuid, now: Time) returns (user: User?)
      ensures user != null ==> fresh(user)
      ensures (if user == null then None else Some(user.Value())) == ToDomain(lib, m, newId, now)
    {
      if m.id == "" {
        return null;
      }
      var parsed := lib.parseUuid(m.id);
      var id := if parsed.ok then parsed.value else NIL_UUID;
      user := NewUser(id, m.name, lib.newDocument(m.document).value, lib.newPhone(m.phoneNumber).value,
                      lib.newEmail(m.email).value, lib.fromHash(m.password).value, NewRolesUnchecked(m.roles), newId, now);
      if user != null {
        user.createdAt := lib.parseTime(m.createdAt).value;
        user.updatedAt := lib.parseTime(m.updatedAt).value;
      }
    }

    method GetByID(id: Uuid, up: bool, newId: Uuid, now: Time) returns (user: User?, r: Outcome)
      ensures r == if up then Success else Failure(ClientError)
      ensures user != null ==> fresh(user)
      ensures (if user == null then None else Some(user.Value()))
           == if up then ReadByID(lib, table.items, id, newId, now) else None
    {
      if !up {
        return null, Failure(ClientError);
      }
      var item := table.GetItem(lib.uuidText(id));
      if item.None? {
        return null, Success;
      }
      user := Unmarshal(item.value, newId, now);
      r := Success;
    }

    method GetByEmail(email: string, up: bool, newId: Uuid, now: Time)
      returns (user: User?, r: Outcome, ghost pick: string)
      requires table.Valid()
      ensures r == if up then Success else Failure(ClientError)
      ensures user != null ==> fresh(user)
      ensures (if user == null then None else Some(user.Value()))
           == if up then ReadByEmail(lib, table.items, email, pick, newId, now) else None
    {
      if !up {
        return null, Failure(ClientError), "";
      }
      var item;
      item, pick := table.Query(ByEmail, email);
      if item.None? {
        return null, Success, pick;
      }
      user := Unmarshal(item.value, newId, now);
      r := Success;
    }

    method ExistsByEmail(email: string, up: bool, newId: Uuid, now: Time)
      returns (found: bool, r: Outcome, ghost pick: string)
      requires table.Valid()
      ensures r == if up then Success else Failure(ClientError)
      ensures found == (up && EmailExists(lib, table.items, email, pick, newId, now))
    {
      var user;
      user, r, pick := GetByEmail(email, up, newId, now);
      found := r == Success && user != null;
    }

    method ExistsByDocument(document: string, up: bool) returns (found: bool, r: Outcome, ghost pick: string)
      requires table.Valid()
      ensures r == if up then Success else Failure(ClientError)
      ensures found == (up && HasDocument(table.items, document))
      ensures HasDocument(table.items, document) == DocumentExists(table.items, document, pick)
    {
      if !up {
        ExistsByDocumentExact(table.items, document, "");
        return false, Failure(ClientError), "";
      }
      var item;
      item, pick := table.Query(ByDocument, document);
      ExistsByDocumentExact(table.items, document, pick);
      return item.Some?, Success, pick;
    }

    /** Every scanned item that toDomain can read is listed, in scan order; a well-formed table loses none. */
    method List(limit: int, up: bool, newId: Uuid, now: Time)
      returns (users: seq<User>, r: Outcome, ghost scanned: seq<Item>)
      requires table.Valid()
      ensures r == if up then Success else Failure(ClientError)
      ensures up && limit > 0 ==> |scanned| == if limit < |table.items| then limit else |table.items|
      ensures up && limit <= 0 ==> |scanned| == if 50 < |table.items| then 50 else |table.items|
      ensures forall i :: 0 <= i < |scanned| ==> scanned[i].id in table.items && table.items[scanned[i].id] == scanned[i]
      ensures forall i, j :: 0 <= i < j < |scanned| ==> scanned[i].id != scanned[j].id
      ensures !up ==> users == []
      ensures up ==> Values(users) == Readable(lib, scanned, newId, now)
    {
      if !up {
        return [], Failure(ClientError), [];
      }
      var models := table.Scan(EffectiveLimit(limit));
      scanned := models;
      users := ReadAll(models, newId, now);
      r := Success;
    }

    /** The loop of List over what was scanned. */
    method ReadAll(models: seq<Item>, newId: Uuid, now: Time) returns (users: seq<User>)
      ensures fresh(set u | u in users)
      ensures Values(users) == Readable(lib, models, newId, now)
    {
      users := [];
      for i := 0 to |models|
        invariant fresh(set u | u in users)
        invariant Values(users) == Readable(lib, models[..i], newId, now)
      {
        ghost var before := users;
        ghost var values := Values(users);
        var u := Unmarshal(models[i], newId, now);
        assert Values(before) == values;
        ReadableNext(lib, models, i, newId, now);
        if u != null {
          users := users + [u];
        }
      }
      assert models[..|models|] == models;
    }
  }

  ghost function Values(users: seq<User>): seq<UserRecord>
    reads users
  {
    seq(|users|, i requires 0 <= i < |users| reads users => users[i].Value())
  }
}
