/** The libraries the service calls and whose code is not part of this model: value objects, UUIDs, the clock's
    text form and password hashing. They are a record of functions; `Lawful` and
    `LawfulConstructors` state what is assumed of them. */
module Library {
  import opened StrUtil

  /** The 128 bits of a UUID, read as a number. */
  type Uuid = nat
  const NIL_UUID: Uuid := 0

  /** Nanoseconds since some fixed instant that is a whole second. */
  type Time = int

  datatype Document = Document(value: string)
  datatype Email = Email(text: string)
  datatype PhoneNumber = PhoneNumber(text: string)
  datatype Password = Password(hash: string)

  /** What a Go function of type (T, error) returns; callers that drop the error use `value` all the same. */
  datatype Parsed<T> = Parsed(value: T, ok: bool)

  datatype Lib = Lib(
    newDocument: string -> Parsed<Document>,
    documentType: Document -> string,
    newEmail: string -> Parsed<Email>,
    newPhone: string -> Parsed<PhoneNumber>,
    newPassword: (string, nat) -> Parsed<Password>,   // the second argument stands for the random salt
    fromHash: string -> Parsed<Password>,
    matches: (Password, string) -> bool,
    parseUuid: string -> Parsed<Uuid>,
    uuidText: Uuid -> string,
    parseTime: string -> Parsed<Time>,
    timeText: Time -> string)

  /** `d` is the value object its own text makes, and its text is digits only. */
  ghost predicate GoodDocument(lib: Lib, d: Document) {
    lib.newDocument(d.value) == Parsed(d, true) && AllDigits(d.value)
  }

  ghost predicate GoodEmail(lib: Lib, e: Email) {
    lib.newEmail(e.text) == Parsed(e, true)
  }

  ghost predicate GoodPhone(lib: Lib, p: PhoneNumber) {
    lib.newPhone(p.text) == Parsed(p, true)
  }

  ghost predicate GoodPassword(lib: Lib, p: Password) {
    lib.fromHash(p.hash) == Parsed(p, true)
  }

  /** The canonical text of an identifier that is not nil. */
  ghost predicate IsIdText(lib: Lib, s: string) {
    var p := lib.parseUuid(s);
    p.ok && p.value != NIL_UUID && lib.uuidText(p.value) == s
  }

  ghost predicate IsTimeText(lib: Lib, s: string) {
    var p := lib.parseTime(s);
    p.ok && lib.timeText(p.value) == s
  }

  /** Text forms are read back: those of UUIDs and, to the nanosecond, those of times. The empty text is neither. */
  ghost predicate Lawful(lib: Lib) {
    && (forall u: Uuid :: lib.parseUuid(lib.uuidText(u)) == Parsed(u, true))
    && !lib.parseUuid("").ok
    && (forall t :: lib.parseTime(lib.timeText(t)) == Parsed(t, true))
    && !lib.parseTime("").ok
  }

  /** What a constructor makes, it makes again from its own text; a hash is accepted again, and matches the password
      it was made from. */
  ghost predicate LawfulConstructors(lib: Lib) {
    && (forall s :: lib.newDocument(s).ok ==> GoodDocument(lib, lib.newDocument(s).value))
    && (forall s :: lib.newEmail(s).ok ==> GoodEmail(lib, lib.newEmail(s).value))
    && (forall s :: lib.newPhone(s).ok ==> GoodPhone(lib, lib.newPhone(s).value))
    && (forall p, salt :: lib.newPassword(p, salt).ok ==>
          GoodPassword(lib, lib.newPassword(p, salt).value) && lib.matches(lib.newPassword(p, salt).value, p))
  }

  lemma UuidTextInjective(lib: Lib, u: Uuid, v: Uuid)
    requires Lawful(lib) && lib.uuidText(u) == lib.uuidText(v)
    ensures u == v
  {
    assert lib.parseUuid(lib.uuidText(u)) == Parsed(u, true);
    assert lib.parseUuid(lib.uuidText(v)) == Parsed(v, true);
  }

  function Unary(n: nat): (s: string)
    ensures |s| == n
  {
    seq(n, i => '1')
  }

  /** A library in which every digit-only text is a document, every text an email, a phone number and a
      password hash, and numbers are written in unary. */
  function UnaryLib(): Lib {
    Lib(s => Parsed(Document(DigitsOf(s)), true),
        d => "CPF",
        s => Parsed(Email(s), true),
        s => Parsed(PhoneNumber(s), true),
        (p, salt) => Parsed(Password(p), true),
        s => Parsed(Password(s), true),
        (h: Password, p: string) => h.hash == p,
        s => if s == "" then Parsed(NIL_UUID, false) else Parsed(|s| - 1, true),
        (u: Uuid) => Unary(u + 1),
        s => if s == "" then Parsed(0, false)
             else if |s| % 2 == 0 then Parsed(-(|s| / 2), true)
             else Parsed(|s| / 2, true),
        t => if t >= 0 then Unary(2 * t + 1) else Unary(2 * -t))
  }

  /** The assumptions can be met. */
  lemma LawfulLibraryExists()
    ensures Lawful(UnaryLib()) && LawfulConstructors(UnaryLib())
  {
    var lib := UnaryLib();
    forall s ensures GoodDocument(lib, lib.newDocument(s).value) {
      DigitsOfIdempotent(s);
    }
    forall t ensures lib.parseTime(lib.timeText(t)) == Parsed(t, true) {
      if t >= 0 {
        assert |lib.timeText(t)| == 2 * t + 1;
      } else {
        assert |lib.timeText(t)| == 2 * -t;
      }
    }
    forall u: Uuid ensures lib.parseUuid(lib.uuidText(u)) == Parsed(u, true) {
    }
  }
}
