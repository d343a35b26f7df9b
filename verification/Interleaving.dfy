/** Interleaved runs: many requests in flight, each between two of its database calls, in any order. */
module Interleaving {
  import opened Prelude
  import opened StrUtil
  import opened Library
  import opened UserDomain
  import opened Table
  import opened UserStore
  import opened UseCases
  import opened Serial

  // ---- The machine ----

  /** Where a request stands: the database call it makes next, and what it holds in memory until then. */
  datatype Phase =
    | CheckingDocument(create: CreateInput)
    | CheckingEmail(create: CreateInput)
    | Creating(user: UserRecord)
    | Loading(update: UpdateInput)
    | CheckingNewEmail(email: Email, user: UserRecord)
    | Saving(user: UserRecord)
    | Deleting(id: Uuid)
    | Finished(outcome: Outcome)

  function Initial(r: Request): Phase {
    match r
    case Create(input, _) => CheckingDocument(input)
    case Update(input, _) => Loading(input)
    case Delete(id, _) => Deleting(id)
  }

  /** The next database call of a request, and its computation in memory up to the call after that. */
  ghost function Call(lib: Lib, items: Items, env: Env, phase: Phase): (Items, Phase) {
    match phase
    case CheckingDocument(input) =>
      if !env.up1 then (items, Finished(Failure(ClientError)))
      else if HasDocument(items, DigitsOf(input.document.value)) then (items, Finished(Failure(DuplicateDocument)))
      else (items, CheckingEmail(input))
    case CheckingEmail(input) =>
      if !env.up2 then (items, Finished(Failure(ClientError)))
      else if EmailExists(lib, items, input.email.text, env.pick, env.id2, env.now) then
        (items, Finished(Failure(DuplicateEmail)))
      else (match NewUserOf(input, env)
            case None => (items, Finished(Failure(InvalidUserName)))
            case Some(u) => (items, Creating(u)))
    case Creating(u) =>
      var (items', outcome) := WriteNew(lib, items, u, env);
      (items', Finished(outcome))
    case Loading(input) =>
      if !env.up1 then (items, Finished(Failure(ClientError)))
      else (match ReadByID(lib, items, input.id, env.id1, env.now)
            case None => (items, Finished(Failure(UserNotFound)))
            case Some(u0) =>
              match ChangeFields(u0, input, env.touch)
              case None => (items, Finished(Failure(InvalidUserName)))
              case Some(u) =>
                (items, if ChangesEmail(u, input) then CheckingNewEmail(input.email.value, u) else Saving(u)))
    case CheckingNewEmail(email, u) =>
      if !env.up2 then (items, Finished(Failure(ClientError)))
      else if EmailExists(lib, items, email.text, env.pick, env.id2, env.now) then
        (items, Finished(Failure(DuplicateEmail)))
      else (items, Saving(WithEmail(u, email, env.touch.email)))
    case Saving(u) =>
      var (items', outcome) := WriteOver(lib, items, u, env);
      (items', Finished(outcome))
    case Deleting(id) =>
      var (items', outcome) := ExecDelete(lib, items, id, env);
      (items', Finished(outcome))
    case Finished(_) => (items, phase)
  }

  datatype Proc = Proc(request: Request, phase: Phase)

  datatype Conf = Conf(items: Items, procs: seq<Proc>)

  function Start(items: Items, requests: seq<Request>): Conf {
    Conf(items, seq(|requests|, i requires 0 <= i < |requests| => Proc(requests[i], Initial(requests[i]))))
  }

  /** Request number `p` makes its next database call. */
  ghost function Step(lib: Lib, c: Conf, p: nat): Conf {
    if p >= |c.procs| then c
    else
      var proc := c.procs[p];
      var (items', phase') := Call(lib, c.items, proc.request.env, proc.phase);
      Conf(items', c.procs[p := proc.(phase := phase')])
  }

  /** The configuration after the calls of `schedule`, in that order: any list of request numbers is a run. */
  ghost function Run(lib: Lib, c: Conf, schedule: seq<nat>): Conf {
    if schedule == [] then c
    else Step(lib, Run(lib, c, schedule[..|schedule| - 1]), schedule[|schedule| - 1])
  }

  lemma {:induction false} RunConcat(lib: Lib, c: Conf, s: seq<nat>, t: seq<nat>)
    ensures Run(lib, c, s + t) == Run(lib, Run(lib, c, s), t)
  {
    if t == [] {
      assert s + t == s;
    } else {
      var n := |t| - 1;
      assert (s + t)[..|s + t| - 1] == s + t[..n];
      RunConcat(lib, c, s, t[..n]);
    }
  }

  // ---- What holds under every interleaving ----

  /** The entity in memory is good, and the phase belongs to the request. */
  ghost predicate GoodProc(lib: Lib, proc: Proc) {
    && GoodRequest(lib, proc.request)
    && match proc.phase
       case CheckingDocument(input) => proc.request.Create? && input == proc.request.create
       case CheckingEmail(input) => proc.request.Create? && input == proc.request.create
       case Creating(u) =>
         && proc.request.Create? && GoodUser(lib, u)
         && u.id == proc.request.env.newId && u.document == proc.request.create.document
       case Loading(input) => GoodUpdate(lib, input)
       case CheckingNewEmail(email, u) => GoodEmail(lib, email) && GoodUser(lib, u)
       case Saving(u) => GoodUser(lib, u)
       case Deleting(_) => true
       case Finished(_) => true
  }

  ghost predicate GoodProcs(lib: Lib, c: Conf) {
    forall p :: 0 <= p < |c.procs| ==> GoodProc(lib, c.procs[p])
  }

  /** `u` is the stored user with the changes made that the update makes before it looks at the email. */
  ghost predicate LoadedAs(lib: Lib, items: Items, input: UpdateInput, env: Env, u: UserRecord) {
    var key := lib.uuidText(input.id);
    && env.up1 && key in items && ChangeFields(Entity(lib, items[key]), input, env.touch) == Some(u)
    && u.id == input.id && u.document.value == items[key].document && u.email.text == items[key].email
    && GoodUser(lib, u)
  }

  /** What an update has in memory after its load. */
  lemma LoadLeadsTo(lib: Lib, items: Items, input: UpdateInput, env: Env)
    requires Lawful(lib) && WellFormed(lib, items) && GoodUpdate(lib, input)
    ensures var (items', phase') := Call(lib, items, env, Loading(input));
      && items' == items
      && match phase'
         case Finished(outcome) => outcome.Failure? && outcome.error != UserAlreadyExists
         case CheckingNewEmail(email, u) => LoadedAs(lib, items, input, env, u) && input.email == Some(email)
         case Saving(u) => LoadedAs(lib, items, input, env, u)
         case _ => false
  {
    LoadedIsStored(lib, items, input.id, env);
    var key := lib.uuidText(input.id);
    if key in items && ChangeFields(Entity(lib, items[key]), input, env.touch).Some? {
      ChangeFieldsKeeps(lib, Entity(lib, items[key]), input, env.touch);
    }
  }

  /** After its call the table is well-formed and the request still good. */
  ghost predicate GoodAfterCall(lib: Lib, items: Items, proc: Proc) {
    var (items', phase') := Call(lib, items, proc.request.env, proc.phase);
    WellFormed(lib, items') && GoodProc(lib, proc.(phase := phase'))
  }

  lemma CheckKeepsGood(lib: Lib, items: Items, proc: Proc)
    requires WellFormed(lib, items) && GoodProc(lib, proc)
    requires proc.phase.CheckingDocument? || proc.phase.CheckingEmail? || proc.phase.CheckingNewEmail?
    ensures GoodAfterCall(lib, items, proc)
  {
    if proc.phase.CheckingEmail? && NewUserOf(proc.phase.create, proc.request.env).Some? {
      NewUserIsGood(lib, proc.phase.create, proc.request.env);
    }
  }

  lemma WriteKeepsGood(lib: Lib, items: Items, proc: Proc)
    requires Lawful(lib) && WellFormed(lib, items) && GoodProc(lib, proc)
    requires proc.phase.Creating? || proc.phase.Saving?
    ensures GoodAfterCall(lib, items, proc)
  {
    PutKeepsWellFormed(lib, items, proc.phase.user);
    UpsertKeepsWellFormed(lib, items, proc.phase.user);
  }

  lemma CallKeepsGood(lib: Lib, items: Items, proc: Proc)
    requires Lawful(lib) && WellFormed(lib, items) && GoodProc(lib, proc)
    ensures GoodAfterCall(lib, items, proc)
  {
    match proc.phase
    case Creating(_) => WriteKeepsGood(lib, items, proc);
    case Saving(_) => WriteKeepsGood(lib, items, proc);
    case Loading(input) => LoadLeadsTo(lib, items, input, proc.request.env);
    case Deleting(_) =>
    case Finished(_) =>
    case _ => CheckKeepsGood(lib, items, proc);
  }

  /** Whatever the interleaving, every stored item keeps a non-nil identifier, a trimmed name that is not blank, value
      objects that parse, valid roles and an update time, and so does every entity in memory. */
  lemma {:induction false} WellFormedUnderInterleaving(lib: Lib, c: Conf, schedule: seq<nat>)
    requires Lawful(lib) && WellFormed(lib, c.items) && GoodProcs(lib, c)
    ensures var c' := Run(lib, c, schedule);
      WellFormed(lib, c'.items) && GoodProcs(lib, c')
  {
    if schedule != [] {
      var n := |schedule| - 1;
      WellFormedUnderInterleaving(lib, c, schedule[..n]);
      var before := Run(lib, c, schedule[..n]);
      if schedule[n] < |before.procs| {
        CallKeepsGood(lib, before.items, before.procs[schedule[n]]);
      }
    }
  }

  lemma StartIsGood(lib: Lib, items: Items, requests: seq<Request>)
    requires GoodRequests(lib, requests)
    ensures GoodProcs(lib, Start(items, requests))
  {
  }

  /** Hence, at every moment of every interleaved run, the email check answers exactly whether the email is stored,
      and reading any stored item yields an entity. */
  lemma ChecksExactUnderInterleaving(lib: Lib, items: Items, requests: seq<Request>, schedule: seq<nat>,
                                     email: string, pick: string, newId: Uuid, now: Time)
    requires Lawful(lib) && WellFormed(lib, items) && GoodRequests(lib, requests)
    ensures var after := Run(lib, Start(items, requests), schedule).items;
      && (EmailExists(lib, after, email, pick, newId, now) <==> HasEmail(after, email))
      && forall id :: id in after ==> ToDomain(lib, after[id], newId, now) == Some(Entity(lib, after[id]))
  {
    StartIsGood(lib, items, requests);
    WellFormedUnderInterleaving(lib, Start(items, requests), schedule);
    var after := Run(lib, Start(items, requests), schedule).items;
    ExistsByEmailExact(lib, after, email, pick, newId, now);
    forall id | id in after ensures ToDomain(lib, after[id], newId, now) == Some(Entity(lib, after[id])) {
      ToDomainOfWellFormed(lib, after[id], newId, now);
    }
  }

  // ---- History: an identifier keeps its document ----

  /** uuid.New never repeats itself: the creates have different new identifiers, none of them in use. */
  ghost predicate FreshIds(lib: Lib, c: Conf) {
    forall p, q :: 0 <= p < q < |c.procs| && c.procs[p].request.Create? && c.procs[q].request.Create?
      ==> c.procs[p].request.env.newId != c.procs[q].request.env.newId
  }

  /** `born` holds the document under which each identifier was created; the stored items and the entities in
      memory agree with it, and a create that has not written yet brings an identifier that is not in it. */
  ghost predicate ProcRemembers(lib: Lib, born: map<string, string>, proc: Proc) {
    match proc.phase
    case CheckingDocument(_) => lib.uuidText(proc.request.env.newId) !in born
    case CheckingEmail(_) => lib.uuidText(proc.request.env.newId) !in born
    case Creating(_) => lib.uuidText(proc.request.env.newId) !in born
    case CheckingNewEmail(_, u) => lib.uuidText(u.id) in born && born[lib.uuidText(u.id)] == u.document.value
    case Saving(u) => lib.uuidText(u.id) in born && born[lib.uuidText(u.id)] == u.document.value
    case Finished(outcome) => outcome != Failure(UserAlreadyExists)
    case _ => true
  }

  ghost predicate Remembers(lib: Lib, born: map<string, string>, c: Conf) {
    ItemsRemember(born, c.items) && forall p :: 0 <= p < |c.procs| ==> ProcRemembers(lib, born, c.procs[p])
  }

  ghost predicate Extends(born: map<string, string>, born': map<string, string>) {
    forall id :: id in born ==> id in born' && born'[id] == born[id]
  }

  /** What one call adds to the history: the document of the user it creates. */
  ghost function Recorded(lib: Lib, born: map<string, string>, proc: Proc): map<string, string> {
    if proc.phase.Creating? && proc.request.env.upWrite then
      born[lib.uuidText(proc.phase.user.id) := proc.phase.user.document.value]
    else born
  }

  ghost predicate ItemsRemember(born: map<string, string>, items: Items) {
    forall id :: id in items ==> id in born && born[id] == items[id].document
  }

  /** After the call the history, extended, still agrees with the items and with the request that made the call. */
  ghost predicate RemembersCall(lib: Lib, born: map<string, string>, items: Items, proc: Proc) {
    var (items', phase') := Call(lib, items, proc.request.env, proc.phase);
    var born' := Recorded(lib, born, proc);
    ProcRemembers(lib, born', proc.(phase := phase')) && ItemsRemember(born', items') && Extends(born, born')
  }

  lemma CreatingRemembers(lib: Lib, born: map<string, string>, items: Items, proc: Proc)
    requires proc.phase.Creating? && GoodProc(lib, proc) && ProcRemembers(lib, born, proc) && ItemsRemember(born, items)
    ensures RemembersCall(lib, born, items, proc)
  {
    assert lib.uuidText(proc.phase.user.id) !in items;
  }

  lemma SavingRemembers(lib: Lib, born: map<string, string>, items: Items, proc: Proc)
    requires proc.phase.Saving? && ProcRemembers(lib, born, proc) && ItemsRemember(born, items)
    ensures RemembersCall(lib, born, items, proc)
  {
  }

  lemma CheckingRemembers(lib: Lib, born: map<string, string>, items: Items, proc: Proc)
    requires proc.phase.CheckingDocument? || proc.phase.CheckingEmail? || proc.phase.CheckingNewEmail?
    requires GoodProc(lib, proc) && ProcRemembers(lib, born, proc) && ItemsRemember(born, items)
    ensures RemembersCall(lib, born, items, proc)
  {
  }

  lemma LoadRemembers(lib: Lib, born: map<string, string>, items: Items, proc: Proc)
    requires Lawful(lib) && WellFormed(lib, items) && proc.phase.Loading? && GoodProc(lib, proc)
    requires ItemsRemember(born, items)
    ensures RemembersCall(lib, born, items, proc)
  {
    LoadLeadsTo(lib, items, proc.phase.update, proc.request.env);
  }

  lemma CallRemembers(lib: Lib, born: map<string, string>, items: Items, proc: Proc)
    requires Lawful(lib) && WellFormed(lib, items) && GoodProc(lib, proc) && ProcRemembers(lib, born, proc)
    requires ItemsRemember(born, items)
    ensures RemembersCall(lib, born, items, proc)
  {
    match proc.phase
    case Creating(u) => CreatingRemembers(lib, born, items, proc);
    case Loading(input) => LoadRemembers(lib, born, items, proc);
    case Saving(u) => SavingRemembers(lib, born, items, proc);
    case Deleting(_) =>
    case Finished(_) =>
    case _ => CheckingRemembers(lib, born, items, proc);
  }

  /** The other requests in flight are not affected by what a create records: their identifiers differ. */
  lemma OthersRemember(lib: Lib, born: map<string, string>, writer: Proc, other: Proc)
    requires Lawful(lib) && GoodProc(lib, writer) && GoodProc(lib, other)
    requires ProcRemembers(lib, born, writer) && ProcRemembers(lib, born, other)
    requires writer.request.Create? && other.request.Create? ==> writer.request.env.newId != other.request.env.newId
    ensures ProcRemembers(lib, Recorded(lib, born, writer), other)
  {
    if writer.phase.Creating? && other.request.Create? {
      if lib.uuidText(writer.request.env.newId) == lib.uuidText(other.request.env.newId) {
        UuidTextInjective(lib, writer.request.env.newId, other.request.env.newId);
      }
    }
  }

  lemma StepRemembers(lib: Lib, born: map<string, string>, c: Conf, p: nat) returns (born': map<string, string>)
    requires Lawful(lib) && WellFormed(lib, c.items) && GoodProcs(lib, c) && FreshIds(lib, c) && Remembers(lib, born, c)
    ensures Remembers(lib, born', Step(lib, c, p)) && Extends(born, born') && FreshIds(lib, Step(lib, c, p))
  {
    if p >= |c.procs| {
      born' := born;
    } else {
      born' := Recorded(lib, born, c.procs[p]);
      CallRemembers(lib, born, c.items, c.procs[p]);
      var c' := Step(lib, c, p);
      forall q | 0 <= q < |c'.procs| ensures ProcRemembers(lib, born', c'.procs[q]) {
        if q != p {
          OthersRemember(lib, born, c.procs[p], c.procs[q]);
        }
      }
    }
  }

  lemma {:induction false} RunRemembers(lib: Lib, born: map<string, string>, c: Conf, schedule: seq<nat>)
    returns (born': map<string, string>)
    requires Lawful(lib) && WellFormed(lib, c.items) && GoodProcs(lib, c) && FreshIds(lib, c) && Remembers(lib, born, c)
    ensures Remembers(lib, born', Run(lib, c, schedule)) && Extends(born, born') && FreshIds(lib, Run(lib, c, schedule))
  {
    if schedule == [] {
      born' := born;
    } else {
      var n := |schedule| - 1;
      var middle := RunRemembers(lib, born, c, schedule[..n]);
      WellFormedUnderInterleaving(lib, c, schedule[..n]);
      born' := StepRemembers(lib, middle, Run(lib, c, schedule[..n]), schedule[n]);
    }
  }

  /** The new identifiers of a list of requests differ from each other and from those in the table. */
  ghost predicate FreshRequests(lib: Lib, items: Items, requests: seq<Request>) {
    && (forall i, j :: 0 <= i < j < |requests| && requests[i].Create? && requests[j].Create?
          ==> requests[i].env.newId != requests[j].env.newId)
    && (forall i :: 0 <= i < |requests| && requests[i].Create? ==> lib.uuidText(requests[i].env.newId) !in items)
  }

  lemma StartRemembers(lib: Lib, items: Items, requests: seq<Request>) returns (born: map<string, string>)
    requires FreshRequests(lib, items, requests)
    ensures Remembers(lib, born, Start(items, requests)) && FreshIds(lib, Start(items, requests))
  {
    born := map k | k in items :: items[k].document;
  }

  /** Whatever the interleaving, an identifier that is stored at two moments has the same document at both, even
      when it was deleted in between and a late update brought it back. */
  lemma HistoryStability(lib: Lib, items: Items, requests: seq<Request>, earlier: seq<nat>, more: seq<nat>, id: string)
    requires Lawful(lib) && WellFormed(lib, items) && GoodRequests(lib, requests) && FreshRequests(lib, items, requests)
    ensures var now := Run(lib, Start(items, requests), earlier).items;
      var later := Run(lib, Start(items, requests), earlier + more).items;
      id in now && id in later ==> later[id].document == now[id].document
  {
    var c := Start(items, requests);
    StartIsGood(lib, items, requests);
    var born := StartRemembers(lib, items, requests);
    var born1 := RunRemembers(lib, born, c, earlier);
    WellFormedUnderInterleaving(lib, c, earlier);
    var born2 := RunRemembers(lib, born1, Run(lib, c, earlier), more);
    RunConcat(lib, c, earlier, more);
  }

  /** With new identifiers that are new, the conditional put of a create never fails its condition. */
  lemma ConditionNeverFails(lib: Lib, items: Items, requests: seq<Request>, schedule: seq<nat>, p: nat)
    requires Lawful(lib) && WellFormed(lib, items) && GoodRequests(lib, requests) && FreshRequests(lib, items, requests)
    requires p < |Run(lib, Start(items, requests), schedule).procs|
    ensures Run(lib, Start(items, requests), schedule).procs[p].phase != Finished(Failure(UserAlreadyExists))
  {
    var c := Start(items, requests);
    StartIsGood(lib, items, requests);
    var born := StartRemembers(lib, items, requests);
    var born' := RunRemembers(lib, born, c, schedule);
  }
}
