/** The user entity: an object whose Change methods update it in place, and the values such an object holds. */
module UserDomain {
  import opened Prelude
  import opened Text
  import opened Library
  import opened Authz

  /** Everything a user object holds at one moment. */
  datatype UserRecord = UserRecord(
    id: Uuid, name: string, document: Document, email: Email, phoneNumber: PhoneNumber,
    password: Password, roles: Roles, createdAt: Time, updatedAt: Time)

  /** A name that NewUser or ChangeName can have left behind. */
  predicate GoodName(name: string) {
    name != "" && TrimSpace(name) == name
  }

  /** The entity invariant, which no single function of the service states. */
  ghost predicate GoodUser(lib: Lib, u: UserRecord) {
    && u.id != NIL_UUID
    && GoodName(u.name)
    && GoodDocument(lib, u.document) && GoodEmail(lib, u.email) && GoodPhone(lib, u.phoneNumber)
    && GoodPassword(lib, u.password)
    && ValidRoles(u.roles)
  }

  /** `newId` stands for the answer of uuid.New. */
  function IDOrNew(id: Uuid, newId: Uuid): (r: Uuid)
    ensures newId != NIL_UUID ==> r != NIL_UUID
    ensures id != NIL_UUID ==> r == id
  {
    if id == NIL_UUID then newId else id
  }

  /** The name check of NewUser and ChangeName: the trimmed name, or nothing when the name is blank. */
  function CheckedName(name: string): Option<string> {
    var trimmed := TrimSpace(name);
    if trimmed == "" then None else Some(trimmed)
  }

  lemma CheckedNameRejects(name: string)
    ensures CheckedName(name).None? <==> AllSpace(name)
  {
    TrimSpaceBlank(name);
  }

  lemma CheckedNameIsGood(name: string)
    requires CheckedName(name).Some?
    ensures GoodName(CheckedName(name).value)
  {
    TrimSpaceIdempotent(name);
  }

  /** The value NewUser builds at time `now`, or nothing when the name is blank. */
  function NewUserRecord(id: Uuid, name: string, document: Document, phoneNumber: PhoneNumber, email: Email,
                         password: Password, roles: Roles, newId: Uuid, now: Time): Option<UserRecord> {
    match CheckedName(name)
    case None => None
    case Some(trimmed) =>
      Some(UserRecord(IDOrNew(id, newId), trimmed, document, email, phoneNumber, password, roles, now, now))
  }

  /** The value after ChangeName, or nothing when the new name is blank. */
  function Renamed(u: UserRecord, newName: string, now: Time): Option<UserRecord> {
    match CheckedName(newName)
    case None => None
    case Some(trimmed) => Some(u.(name := trimmed, updatedAt := now))
  }

  class User {
    var id: Uuid
    var name: string
    var document: Document
    var email: Email
    var phoneNumber: PhoneNumber
    var password: Password
    var roles: Roles
    var createdAt: Time
    var updatedAt: Time

    ghost function Value(): UserRecord
      reads this
    {
      UserRecord(id, name, document, email, phoneNumber, password, roles, createdAt, updatedAt)
    }

    constructor (id: Uuid, name: string, document: Document, email: Email, phoneNumber: PhoneNumber,
                 password: Password, roles: Roles, now: Time)
      ensures Value() == UserRecord(id, name, document, email, phoneNumber, password, roles, now, now)
    {
      this.id, this.name, this.document, this.email := id, name, document, email;
      this.phoneNumber, this.password, this.roles := phoneNumber, password, roles;
      this.createdAt, this.updatedAt := now, now;
    }

    /** Timestamps.Touch, at the time the clock shows. */
    method Touch(now: Time)
      modifies this`updatedAt
      ensures updatedAt == now
    {
      updatedAt := now;
    }

    method ChangeName(newName: string, now: Time) returns (r: Outcome)
      modifies this`name, this`updatedAt
      ensures r == if Renamed(old(Value()), newName, now).None? then Failure(InvalidUserName) else Success
      ensures Value() == if r.Failure? then old(Value()) else Renamed(old(Value()), newName, now).value
    {
      var trimmed := TrimSpace(newName);
      if trimmed == "" {
        return Failure(InvalidUserName);
      }
      name := trimmed;
      Touch(now);
      return Success;
    }

    method ChangePhoneNumber(newPhone: PhoneNumber, now: Time)
      modifies this`phoneNumber, this`updatedAt
      ensures Value() == old(Value()).(phoneNumber := newPhone, updatedAt := now)
    {
      phoneNumber := newPhone;
      Touch(now);
    }

    method ChangeEmail(newEmail: Email, now: Time)
      modifies this`email, this`updatedAt
      ensures Value() == old(Value()).(email := newEmail, updatedAt := now)
    {
      email := newEmail;
      Touch(now);
    }

    method ChangePassword(newPassword: Password, now: Time)
      modifies this`password, this`updatedAt
      ensures Value() == old(Value()).(password := newPassword, updatedAt := now)
    {
      password := newPassword;
      Touch(now);
    }

    method ChangeRoles(newRoles: Roles, now: Time)
      modifies this`roles, this`updatedAt
      ensures Value() == old(Value()).(roles := newRoles, updatedAt := now)
    {
      roles := newRoles;
      Touch(now);
    }
  }

  method NewUser(id: Uuid, name: string, document: Document, phoneNumber: PhoneNumber, email: Email,
                 password: Password, roles: Roles, newId: Uuid, now: Time) returns (user: User?)
    ensures user != null ==> fresh(user)
    ensures (if user == null then None else Some(user.Value()))
         == NewUserRecord(id, name, document, phoneNumber, email, password, roles, newId, now)
  {
    var trimmed := TrimSpace(name);
    if trimmed == "" {
      return null;
    }
    user := new User(IDOrNew(id, newId), trimmed, document, email, phoneNumber, password, roles, now);
  }
}
