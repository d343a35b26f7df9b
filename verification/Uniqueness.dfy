/** Which lists of requests can be interleaved in any way without storing an email or a document twice. */
module Uniqueness {
  import opened Prelude
  import opened StrUtil
  import opened Library
  import opened UserDomain
  import opened Table
  import opened UserStore
  import opened UseCases
  import opened Serial
  import opened Interleaving
  import opened Reduction
  import opened Races

  // ---- What the requests may come to store ----

  /** The database answers every call of the request, and the request has no blank name. */
  predicate Able(r: Request) {
    match r
    case Create(input, env) => AllUp(env) && NewUserOf(input, env).Some?
    case Update(input, env) => AllUp(env) && (input.name.Some? ==> CheckedName(input.name.value).Some?)
    case Delete(_, env) => env.upWrite
  }

  predicate CreatesUser(r: Request, id: Uuid) {
    r.Create? && Able(r) && r.env.newId == id
  }

  predicate SetsEmail(r: Request, id: Uuid, email: string) {
    || (CreatesUser(r, id) && r.create.email.text == email)
    || (r.Update? && Able(r) && r.update.id == id && r.update.email.Some? && r.update.email.value.text == email)
  }

  predicate SetsDocument(r: Request, id: Uuid, document: string) {
    CreatesUser(r, id) && r.create.document.value == document
  }

  /** The user is stored at first, or a request creates the user. */
  ghost predicate MayBeStored(lib: Lib, items: Items, requests: seq<Request>, id: Uuid) {
    lib.uuidText(id) in items || exists r :: r in requests && CreatesUser(r, id)
  }

  /** The user holds the email at first, or may be stored and a request supplies it for the user. */
  ghost predicate MayHoldEmail(lib: Lib, items: Items, requests: seq<Request>, id: Uuid, email: string) {
    var key := lib.uuidText(id);
    || (key in items && items[key].email == email)
    || (MayBeStored(lib, items, requests, id) && exists r :: r in requests && SetsEmail(r, id, email))
  }

  ghost predicate MayHoldDocument(lib: Lib, items: Items, requests: seq<Request>, id: Uuid, document: string) {
    var key := lib.uuidText(id);
    || (key in items && items[key].document == document)
    || exists r :: r in requests && SetsDocument(r, id, document)
  }

  ghost predicate BothEmail(lib: Lib, items: Items, requests: seq<Request>, j: Uuid, k: Uuid, email: string) {
    MayHoldEmail(lib, items, requests, j, email) && MayHoldEmail(lib, items, requests, k, email)
  }

  ghost predicate BothDocument(lib: Lib, items: Items, requests: seq<Request>, j: Uuid, k: Uuid, document: string) {
    MayHoldDocument(lib, items, requests, j, document) && MayHoldDocument(lib, items, requests, k, document)
  }

  /** No email and no document is one that two users may hold. */
  ghost predicate NoClash(lib: Lib, items: Items, requests: seq<Request>) {
    && (forall j, k, email :: BothEmail(lib, items, requests, j, k, email) ==> j == k)
    && (forall j, k, document :: BothDocument(lib, items, requests, j, k, document) ==> j == k)
  }

  // ---- They store nothing else ----

  ghost predicate ItemsHold(lib: Lib, items: Items, requests: seq<Request>, now: Items) {
    forall id: Uuid :: lib.uuidText(id) in now ==>
      && MayHoldEmail(lib, items, requests, id, now[lib.uuidText(id)].email)
      && MayHoldDocument(lib, items, requests, id, now[lib.uuidText(id)].document)
  }

  /** The entity in memory is one the request may write. */
  ghost predicate ProcHolds(lib: Lib, items: Items, requests: seq<Request>, proc: Proc) {
    var r := proc.request;
    && r in requests
    && match proc.phase
       case CheckingEmail(_) => r.env.up1
       case Creating(u) => r.Create? && r.env.up1 && r.env.up2 && NewUserOf(r.create, r.env) == Some(u)
       case Loading(input) => r.Update? && input == r.update
       case CheckingNewEmail(email, u) =>
         && r.Update? && r.env.up1 && r.update.id == u.id && r.update.email == Some(email)
         && (r.update.name.Some? ==> CheckedName(r.update.name.value).Some?)
         && MayBeStored(lib, items, requests, u.id)
         && MayHoldDocument(lib, items, requests, u.id, u.document.value)
       case Saving(u) =>
         && (r.env.upWrite ==> MayHoldEmail(lib, items, requests, u.id, u.email.text))
         && MayHoldDocument(lib, items, requests, u.id, u.document.value)
       case _ => true
  }

  ghost predicate HoldsAfterCall(lib: Lib, items: Items, requests: seq<Request>, now: Items, proc: Proc) {
    var (now', phase') := Call(lib, now, proc.request.env, proc.phase);
    ItemsHold(lib, items, requests, now') && ProcHolds(lib, items, requests, proc.(phase := phase'))
  }

  lemma CheckHolds(lib: Lib, items: Items, requests: seq<Request>, now: Items, proc: Proc)
    requires GoodProc(lib, proc) && ItemsHold(lib, items, requests, now) && ProcHolds(lib, items, requests, proc)
    requires proc.phase.CheckingDocument? || proc.phase.CheckingEmail?
    ensures HoldsAfterCall(lib, items, requests, now, proc)
  {
  }

  lemma NewEmailHolds(lib: Lib, items: Items, requests: seq<Request>, now: Items, proc: Proc)
    requires ItemsHold(lib, items, requests, now) && ProcHolds(lib, items, requests, proc)
    requires proc.phase.CheckingNewEmail?
    ensures HoldsAfterCall(lib, items, requests, now, proc)
  {
    var r := proc.request;
    if AllUp(r.env) {
      assert SetsEmail(r, r.update.id, proc.phase.email.text);
    }
  }

  lemma LoadHolds(lib: Lib, items: Items, requests: seq<Request>, now: Items, proc: Proc)
    requires Lawful(lib) && WellFormed(lib, now) && GoodProc(lib, proc)
    requires ItemsHold(lib, items, requests, now) && ProcHolds(lib, items, requests, proc)
    requires proc.phase.Loading?
    ensures HoldsAfterCall(lib, items, requests, now, proc)
  {
    LoadLeadsTo(lib, now, proc.phase.update, proc.request.env);
  }

  lemma WriteHolds(lib: Lib, items: Items, requests: seq<Request>, now: Items, proc: Proc)
    requires Lawful(lib) && ItemsHold(lib, items, requests, now) && ProcHolds(lib, items, requests, proc)
    requires GoodProc(lib, proc) && (proc.phase.Creating? || proc.phase.Saving?)
    ensures HoldsAfterCall(lib, items, requests, now, proc)
  {
    var u := proc.phase.user;
    if proc.request.env.upWrite {
      if proc.phase.Creating? {
        assert CreatesUser(proc.request, u.id);
        assert SetsEmail(proc.request, u.id, u.email.text) && SetsDocument(proc.request, u.id, u.document.value);
      }
      forall id: Uuid | lib.uuidText(id) == lib.uuidText(u.id) ensures id == u.id {
        UuidTextInjective(lib, id, u.id);
      }
    }
  }

  lemma CallHolds(lib: Lib, items: Items, requests: seq<Request>, now: Items, proc: Proc)
    requires Lawful(lib) && WellFormed(lib, now) && GoodProc(lib, proc)
    requires ItemsHold(lib, items, requests, now) && ProcHolds(lib, items, requests, proc)
    ensures HoldsAfterCall(lib, items, requests, now, proc)
  {
    match proc.phase
    case CheckingDocument(_) => CheckHolds(lib, items, requests, now, proc);
    case CheckingEmail(_) => CheckHolds(lib, items, requests, now, proc);
    case CheckingNewEmail(_, _) => NewEmailHolds(lib, items, requests, now, proc);
    case Loading(_) => LoadHolds(lib, items, requests, now, proc);
    case Deleting(_) =>
    case Finished(_) =>
    case _ => WriteHolds(lib, items, requests, now, proc);
  }

  ghost predicate AllHold(lib: Lib, items: Items, requests: seq<Request>, c: Conf) {
    && ItemsHold(lib, items, requests, c.items)
    && forall p :: 0 <= p < |c.procs| ==> ProcHolds(lib, items, requests, c.procs[p])
  }

  /** Whatever the interleaving, every stored user holds an email and a document that the user may hold. */
  lemma {:induction false} RunHolds(lib: Lib, items: Items, requests: seq<Request>, schedule: seq<nat>)
    requires Lawful(lib) && WellFormed(lib, items) && GoodRequests(lib, requests)
    ensures AllHold(lib, items, requests, Run(lib, Start(items, requests), schedule))
  {
    var start := Start(items, requests);
    if schedule == [] {
      StartHolds(lib, items, requests);
    } else {
      var n := |schedule| - 1;
      RunHolds(lib, items, requests, schedule[..n]);
      StartIsGood(lib, items, requests);
      WellFormedUnderInterleaving(lib, start, schedule[..n]);
      var before := Run(lib, start, schedule[..n]);
      if schedule[n] < |before.procs| {
        CallHolds(lib, items, requests, before.items, before.procs[schedule[n]]);
      }
    }
  }

  lemma StartHolds(lib: Lib, items: Items, requests: seq<Request>)
    ensures AllHold(lib, items, requests, Start(items, requests))
  {
  }

  /** Without a clash, every interleaving of the requests keeps uniqueness at every moment. */
  lemma NoClashKeepsUnique(lib: Lib, items: Items, requests: seq<Request>, schedule: seq<nat>)
    requires Lawful(lib) && WellFormed(lib, items) && GoodRequests(lib, requests) && NoClash(lib, items, requests)
    ensures Unique(Run(lib, Start(items, requests), schedule).items)
  {
    RunHolds(lib, items, requests, schedule);
    StartIsGood(lib, items, requests);
    WellFormedUnderInterleaving(lib, Start(items, requests), schedule);
    var after := Run(lib, Start(items, requests), schedule).items;
    forall j, k | j in after && k in after
        && (after[j].email == after[k].email || after[j].document == after[k].document)
      ensures j == k
    {
      assert IsIdText(lib, j) && IsIdText(lib, k) by {
        assert WellFormedItem(lib, after[j]) && WellFormedItem(lib, after[k]);
      }
      var u, v := lib.parseUuid(j).value, lib.parseUuid(k).value;
      assert lib.uuidText(u) in after && lib.uuidText(v) in after;
      assert BothEmail(lib, items, requests, u, v, after[j].email)
        || BothDocument(lib, items, requests, u, v, after[j].document);
    }
  }

  // ---- With a clash, from an empty table, some interleaving breaks uniqueness ----

  ghost predicate Reached(lib: Lib, requests: seq<Request>, c: Conf) {
    exists schedule :: c == Run(lib, Start(map[], requests), schedule)
  }

  lemma ReachedNext(lib: Lib, requests: seq<Request>, c: Conf, p: nat)
    requires Reached(lib, requests, c)
    ensures Reached(lib, requests, Step(lib, c, p))
  {
    var schedule :| c == Run(lib, Start(map[], requests), schedule);
    RunOneMore(lib, Start(map[], requests), schedule, p);
  }

  lemma ReachedIsGood(lib: Lib, requests: seq<Request>, c: Conf)
    requires Lawful(lib) && GoodRequests(lib, requests) && Reached(lib, requests, c)
    ensures WellFormed(lib, c.items) && GoodProcs(lib, c)
    ensures |c.procs| == |requests| && forall p :: 0 <= p < |requests| ==> c.procs[p].request == requests[p]
  {
    var schedule :| c == Run(lib, Start(map[], requests), schedule);
    StartIsGood(lib, map[], requests);
    WellFormedUnderInterleaving(lib, Start(map[], requests), schedule);
    RunKeepsRequests(lib, Start(map[], requests), schedule);
  }

  /** Request `p` has not called yet. */
  predicate Waiting(requests: seq<Request>, c: Conf, p: nat) {
    p < |requests| && p < |c.procs| && c.procs[p] == Proc(requests[p], Initial(requests[p]))
  }

  /** From `c` to `c'` only request `p` has called, and has come to `phase`. */
  predicate Moved(c: Conf, c': Conf, p: nat, phase: Phase) {
    && p < |c.procs| && |c'.procs| == |c.procs|
    && c'.procs[p] == c.procs[p].(phase := phase)
    && forall q :: 0 <= q < |c.procs| && q != p ==> c'.procs[q] == c.procs[q]
  }

  /** Two calls of a request, of which the first leaves the table alone. */
  lemma TwoCalls(lib: Lib, requests: seq<Request>, c: Conf, p: nat, middle: Phase, items': Items, end: Phase)
    returns (c': Conf)
    requires Reached(lib, requests, c) && p < |c.procs|
    requires Call(lib, c.items, c.procs[p].request.env, c.procs[p].phase) == (c.items, middle)
    requires Call(lib, c.items, c.procs[p].request.env, middle) == (items', end)
    ensures Reached(lib, requests, c') && c'.items == items' && Moved(c, c', p, end)
  {
    var c1 := Step(lib, c, p);
    assert c1 == Conf(c.items, c.procs[p := c.procs[p].(phase := middle)]);
    ReachedNext(lib, requests, c, p);
    c' := Step(lib, c1, p);
    ReachedNext(lib, requests, c1, p);
  }

  lemma OneCall(lib: Lib, requests: seq<Request>, c: Conf, p: nat, items': Items, end: Phase) returns (c': Conf)
    requires Reached(lib, requests, c) && p < |c.procs|
    requires Call(lib, c.items, c.procs[p].request.env, c.procs[p].phase) == (items', end)
    ensures Reached(lib, requests, c') && c'.items == items' && Moved(c, c', p, end)
  {
    c' := Step(lib, c, p);
    ReachedNext(lib, requests, c, p);
  }

  /** The user that a create makes. */
  function Made(r: Request): UserRecord
    requires r.Create? && NewUserOf(r.create, r.env).Some?
  {
    NewUserOf(r.create, r.env).value
  }

  lemma MadeIs(lib: Lib, r: Request)
    requires r.Create? && Able(r) && GoodRequest(lib, r)
    ensures var m := ToModel(lib, Made(r));
      && Made(r).id == r.env.newId && m.id == lib.uuidText(r.env.newId)
      && m.email == r.create.email.text && m.document == r.create.document.value
  {
    NewUserIsGood(lib, r.create, r.env);
  }

  ghost predicate Free(items: Items, input: CreateInput) {
    !HasDocument(items, input.document.value) && !HasEmail(items, input.email.text)
  }

  /** A create whose email and document are free makes its checks. */
  lemma CreateChecks(lib: Lib, requests: seq<Request>, c: Conf, p: nat) returns (c': Conf)
    requires Lawful(lib) && GoodRequests(lib, requests) && Reached(lib, requests, c) && Waiting(requests, c, p)
    requires requests[p].Create? && Able(requests[p])
    requires Free(c.items, requests[p].create)
    ensures Reached(lib, requests, c') && c'.items == c.items && Moved(c, c', p, Creating(Made(requests[p])))
  {
    var input, env := requests[p].create, requests[p].env;
    ReachedIsGood(lib, requests, c);
    assert GoodRequest(lib, requests[p]);
    DigitsOfFixes(input.document.value);
    ExistsByEmailExact(lib, c.items, input.email.text, env.pick, env.id2, env.now);
    c' := TwoCalls(lib, requests, c, p, CheckingEmail(input), c.items, Creating(Made(requests[p])));
  }

  /** The load and the check of an update of a stored user to an email that is free. */
  lemma UpdateReads(lib: Lib, items: Items, r: Request, email: string) returns (changed: UserRecord, u: UserRecord)
    requires Lawful(lib) && WellFormed(lib, items) && r.Update? && GoodRequest(lib, r)
    requires SetsEmail(r, r.update.id, email) && lib.uuidText(r.update.id) in items && !HasEmail(items, email)
    ensures u.id == r.update.id && u.email.text == email
    ensures Call(lib, items, r.env, Loading(r.update)) == (items, CheckingNewEmail(r.update.email.value, changed))
    ensures Call(lib, items, r.env, CheckingNewEmail(r.update.email.value, changed)) == (items, Saving(u))
  {
    var input, env := r.update, r.env;
    var m := items[lib.uuidText(input.id)];
    LoadedIsStored(lib, items, input.id, env);
    ChangeFieldsKeeps(lib, Entity(lib, m), input, env.touch);
    ExistsByEmailExact(lib, items, email, env.pick, env.id2, env.now);
    changed := ChangeFields(Entity(lib, m), input, env.touch).value;
    u := WithEmail(changed, input.email.value, env.touch.email);
    assert m.email != email;
  }

  /** Such an update makes its load and its check. */
  lemma UpdateChecks(lib: Lib, requests: seq<Request>, c: Conf, p: nat, email: string) returns (c': Conf, u: UserRecord)
    requires Lawful(lib) && GoodRequests(lib, requests) && Reached(lib, requests, c) && Waiting(requests, c, p)
    requires requests[p].Update? && SetsEmail(requests[p], requests[p].update.id, email)
    requires lib.uuidText(requests[p].update.id) in c.items && !HasEmail(c.items, email)
    ensures u.id == requests[p].update.id && u.email.text == email
    ensures Reached(lib, requests, c') && c'.items == c.items && Moved(c, c', p, Saving(u))
  {
    ReachedIsGood(lib, requests, c);
    assert GoodRequest(lib, requests[p]);
    var changed;
    changed, u := UpdateReads(lib, c.items, requests[p], email);
    c' := TwoCalls(lib, requests, c, p, CheckingNewEmail(requests[p].update.email.value, changed), c.items, Saving(u));
  }

  lemma Puts(lib: Lib, requests: seq<Request>, c: Conf, p: nat) returns (c': Conf)
    requires Reached(lib, requests, c) && p < |requests| && p < |c.procs|
    requires requests[p].Create? && Able(requests[p]) && c.procs[p] == Proc(requests[p], Creating(Made(requests[p])))
    requires lib.uuidText(Made(requests[p]).id) !in c.items
    ensures Reached(lib, requests, c') && Moved(c, c', p, Finished(Success))
    ensures c'.items == c.items[lib.uuidText(Made(requests[p]).id) := ToModel(lib, Made(requests[p]))]
  {
    var u := Made(requests[p]);
    c' := OneCall(lib, requests, c, p, c.items[lib.uuidText(u.id) := ToModel(lib, u)], Finished(Success));
  }

  lemma Saves(lib: Lib, requests: seq<Request>, c: Conf, p: nat, u: UserRecord) returns (c': Conf)
    requires Reached(lib, requests, c) && p < |requests| && p < |c.procs|
    requires Able(requests[p]) && requests[p].Update? && c.procs[p] == Proc(requests[p], Saving(u))
    ensures Reached(lib, requests, c') && Moved(c, c', p, Finished(Success))
    ensures c'.items == Upsert(c.items, ToModel(lib, u))
  {
    c' := OneCall(lib, requests, c, p, Upsert(c.items, ToModel(lib, u)), Finished(Success));
  }

  /** Some interleaving of the requests, from an empty table, stores an email or a document twice. */
  ghost predicate Breakable(lib: Lib, requests: seq<Request>) {
    exists c :: Reached(lib, requests, c) && !Unique(c.items)
  }

  lemma TwoHolders(lib: Lib, requests: seq<Request>, c: Conf, j: string, k: string)
    requires Reached(lib, requests, c) && j in c.items && k in c.items && j != k
    requires c.items[j].email == c.items[k].email || c.items[j].document == c.items[k].document
    ensures Breakable(lib, requests)
  {
  }

  lemma KeysDiffer(lib: Lib, j: Uuid, k: Uuid)
    requires Lawful(lib) && j != k
    ensures lib.uuidText(j) != lib.uuidText(k)
  {
    if lib.uuidText(j) == lib.uuidText(k) {
      UuidTextInjective(lib, j, k);
    }
  }

  lemma StartReached(lib: Lib, requests: seq<Request>)
    ensures Reached(lib, requests, Start(map[], requests))
  {
    var empty: seq<nat> := [];
    assert Run(lib, Start(map[], requests), empty) == Start(map[], requests);
  }

  /** Two creates, both checking before either writes. */
  lemma CreatesClash(lib: Lib, requests: seq<Request>, a: nat, b: nat)
    requires Lawful(lib) && GoodRequests(lib, requests) && a < |requests| && b < |requests|
    requires requests[a].Create? && Able(requests[a]) && requests[b].Create? && Able(requests[b])
    requires requests[a].env.newId != requests[b].env.newId
    requires requests[a].create.email.text == requests[b].create.email.text
          || requests[a].create.document.value == requests[b].create.document.value
    ensures Breakable(lib, requests)
  {
    MadeIs(lib, requests[a]);
    MadeIs(lib, requests[b]);
    KeysDiffer(lib, requests[a].env.newId, requests[b].env.newId);
    StartReached(lib, requests);
    var c1 := CreateChecks(lib, requests, Start(map[], requests), a);
    var c2 := CreateChecks(lib, requests, c1, b);
    var c3 := Puts(lib, requests, c2, a);
    var c4 := Puts(lib, requests, c3, b);
    TwoHolders(lib, requests, c4, lib.uuidText(requests[a].env.newId), lib.uuidText(requests[b].env.newId));
  }

  /** A create alone, from a table without its email and its document. */
  lemma Stores(lib: Lib, requests: seq<Request>, c: Conf, p: nat) returns (c': Conf)
    requires Lawful(lib) && GoodRequests(lib, requests) && Reached(lib, requests, c) && Waiting(requests, c, p)
    requires requests[p].Create? && Able(requests[p]) && lib.uuidText(requests[p].env.newId) !in c.items
    requires Free(c.items, requests[p].create)
    ensures Reached(lib, requests, c') && Moved(c, c', p, Finished(Success))
    ensures c'.items == c.items[lib.uuidText(requests[p].env.newId) := ToModel(lib, Made(requests[p]))]
  {
    MadeIs(lib, requests[p]);
    var c1 := CreateChecks(lib, requests, c, p);
    c' := Puts(lib, requests, c1, p);
  }

  /** A user waits to be updated to the email under which another is created: both check, both write. */
  lemma UpdateMeetsCreate(lib: Lib, requests: seq<Request>, c: Conf, a: nat, u: nat)
    requires Lawful(lib) && GoodRequests(lib, requests) && Reached(lib, requests, c)
    requires Waiting(requests, c, a) && Waiting(requests, c, u)
    requires requests[a].Create? && Able(requests[a]) && lib.uuidText(requests[a].env.newId) !in c.items
    requires Free(c.items, requests[a].create)
    requires requests[u].Update? && SetsEmail(requests[u], requests[u].update.id, requests[a].create.email.text)
    requires lib.uuidText(requests[u].update.id) in c.items
    ensures Breakable(lib, requests)
  {
    MadeIs(lib, requests[a]);
    var c1, user := UpdateChecks(lib, requests, c, u, requests[a].create.email.text);
    var c2 := CreateChecks(lib, requests, c1, a);
    var c3 := Puts(lib, requests, c2, a);
    var c4 := Saves(lib, requests, c3, u, user);
    TwoHolders(lib, requests, c4, lib.uuidText(requests[a].env.newId), lib.uuidText(requests[u].update.id));
  }

  /** A create and an update to the same email: the updated user is created first. */
  lemma CreateAndUpdateClash(lib: Lib, requests: seq<Request>, a: nat, b: nat, u: nat)
    requires Lawful(lib) && GoodRequests(lib, requests) && a < |requests| && b < |requests| && u < |requests|
    requires requests[a].Create? && Able(requests[a])
    requires requests[u].Update? && SetsEmail(requests[u], requests[u].update.id, requests[a].create.email.text)
    requires CreatesUser(requests[b], requests[u].update.id) && requests[a].env.newId != requests[u].update.id
    ensures Breakable(lib, requests)
  {
    var ra, rb := requests[a], requests[b];
    if ra.create.email.text == rb.create.email.text || ra.create.document.value == rb.create.document.value {
      CreatesClash(lib, requests, a, b);
    } else {
      MadeIs(lib, rb);
      KeysDiffer(lib, ra.env.newId, rb.env.newId);
      StartReached(lib, requests);
      var c := Stores(lib, requests, Start(map[], requests), b);
      UpdateMeetsCreate(lib, requests, c, a, u);
    }
  }

  /** Both check, both write. */
  lemma BothUpdate(lib: Lib, requests: seq<Request>, c: Conf, u: nat, v: nat, email: string)
    requires Lawful(lib) && GoodRequests(lib, requests) && Reached(lib, requests, c)
    requires Waiting(requests, c, u) && Waiting(requests, c, v) && !HasEmail(c.items, email)
    requires requests[u].Update? && SetsEmail(requests[u], requests[u].update.id, email)
    requires requests[v].Update? && SetsEmail(requests[v], requests[v].update.id, email)
    requires var ku, kv := lib.uuidText(requests[u].update.id), lib.uuidText(requests[v].update.id);
      ku in c.items && kv in c.items && ku != kv
    ensures Breakable(lib, requests)
  {
    var c1, user := UpdateChecks(lib, requests, c, u, email);
    var c2, other := UpdateChecks(lib, requests, c1, v, email);
    var c3 := Saves(lib, requests, c2, u, user);
    var c4 := Saves(lib, requests, c3, v, other);
    TwoHolders(lib, requests, c4, lib.uuidText(requests[u].update.id), lib.uuidText(requests[v].update.id));
  }

  /** Two creates that share nothing, one after the other. */
  lemma StoresBoth(lib: Lib, requests: seq<Request>, a: nat, b: nat) returns (c: Conf)
    requires Lawful(lib) && GoodRequests(lib, requests) && a < |requests| && b < |requests|
    requires requests[a].Create? && Able(requests[a]) && requests[b].Create? && Able(requests[b])
    requires requests[a].env.newId != requests[b].env.newId
    requires requests[a].create.email.text != requests[b].create.email.text
    requires requests[a].create.document.value != requests[b].create.document.value
    ensures Reached(lib, requests, c) && forall p: nat :: p < |requests| && p != a && p != b ==> Waiting(requests, c, p)
    ensures lib.uuidText(requests[a].env.newId) in c.items && lib.uuidText(requests[b].env.newId) in c.items
    ensures forall email :: HasEmail(c.items, email) ==>
      email == requests[a].create.email.text || email == requests[b].create.email.text
  {
    MadeIs(lib, requests[a]);
    MadeIs(lib, requests[b]);
    KeysDiffer(lib, requests[a].env.newId, requests[b].env.newId);
    StartReached(lib, requests);
    var c1 := Stores(lib, requests, Start(map[], requests), a);
    c := Stores(lib, requests, c1, b);
  }

  /** Two updates to the same email: both users are created first. */
  lemma UpdatesClash(lib: Lib, requests: seq<Request>, a: nat, b: nat, u: nat, v: nat, email: string)
    requires Lawful(lib) && GoodRequests(lib, requests)
    requires a < |requests| && b < |requests| && u < |requests| && v < |requests|
    requires requests[u].Update? && SetsEmail(requests[u], requests[u].update.id, email)
    requires requests[v].Update? && SetsEmail(requests[v], requests[v].update.id, email)
    requires CreatesUser(requests[a], requests[u].update.id) && CreatesUser(requests[b], requests[v].update.id)
    requires requests[u].update.id != requests[v].update.id
    ensures Breakable(lib, requests)
  {
    var ra, rb := requests[a], requests[b];
    if ra.create.email.text == rb.create.email.text || ra.create.document.value == rb.create.document.value {
      CreatesClash(lib, requests, a, b);
    } else if ra.create.email.text == email {
      CreateAndUpdateClash(lib, requests, a, b, v);
    } else if rb.create.email.text == email {
      CreateAndUpdateClash(lib, requests, b, a, u);
    } else {
      var c := StoresBoth(lib, requests, a, b);
      KeysDiffer(lib, ra.env.newId, rb.env.newId);
      BothUpdate(lib, requests, c, u, v, email);
    }
  }

  /** From a request in the list to its position. */
  lemma PositionOf(requests: seq<Request>, r: Request) returns (i: nat)
    requires r in requests
    ensures i < |requests| && requests[i] == r
  {
    i :| i < |requests| && requests[i] == r;
  }

  /** From an empty table, who may hold an email is created by one request, and given the email by one. */
  lemma HolderOf(lib: Lib, requests: seq<Request>, id: Uuid, email: string) returns (a: nat, s: nat)
    requires MayHoldEmail(lib, map[], requests, id, email)
    ensures a < |requests| && CreatesUser(requests[a], id) && s < |requests| && SetsEmail(requests[s], id, email)
  {
    var r :| r in requests && CreatesUser(r, id);
    a := PositionOf(requests, r);
    var q :| q in requests && SetsEmail(q, id, email);
    s := PositionOf(requests, q);
  }

  lemma EmailClash(lib: Lib, requests: seq<Request>, j: Uuid, k: Uuid, email: string)
    requires Lawful(lib) && GoodRequests(lib, requests) && j != k
    requires BothEmail(lib, map[], requests, j, k, email)
    ensures Breakable(lib, requests)
  {
    var a, s := HolderOf(lib, requests, j, email);
    var b, t := HolderOf(lib, requests, k, email);
    if requests[s].Create? && requests[t].Create? {
      CreatesClash(lib, requests, s, t);
    } else if requests[s].Create? {
      CreateAndUpdateClash(lib, requests, s, b, t);
    } else if requests[t].Create? {
      CreateAndUpdateClash(lib, requests, t, a, s);
    } else {
      UpdatesClash(lib, requests, a, b, s, t, email);
    }
  }

  lemma DocumentClash(lib: Lib, requests: seq<Request>, j: Uuid, k: Uuid, document: string)
    requires Lawful(lib) && GoodRequests(lib, requests) && j != k
    requires BothDocument(lib, map[], requests, j, k, document)
    ensures Breakable(lib, requests)
  {
    var r :| r in requests && SetsDocument(r, j, document);
    var q :| q in requests && SetsDocument(q, k, document);
    var a := PositionOf(requests, r);
    var b := PositionOf(requests, q);
    CreatesClash(lib, requests, a, b);
  }

  /** Exactly when a list of requests, served at the same time from an empty table, stores no email and no document
      twice, at any moment of any interleaving: no two users that the requests create may come to hold the same
      email or document. */
  lemma UniqueExactly(lib: Lib, requests: seq<Request>)
    requires Lawful(lib) && GoodRequests(lib, requests)
    ensures (forall schedule :: Unique(Run(lib, Start(map[], requests), schedule).items))
       <==> NoClash(lib, map[], requests)
  {
    if NoClash(lib, map[], requests) {
      forall schedule ensures Unique(Run(lib, Start(map[], requests), schedule).items) {
        NoClashKeepsUnique(lib, map[], requests, schedule);
      }
    } else {
      if j, k, email :| BothEmail(lib, map[], requests, j, k, email) && j != k {
        EmailClash(lib, requests, j, k, email);
      } else {
        var j, k, document :| BothDocument(lib, map[], requests, j, k, document) && j != k;
        DocumentClash(lib, requests, j, k, document);
      }
      var c :| Reached(lib, requests, c) && !Unique(c.items);
      var schedule :| c == Run(lib, Start(map[], requests), schedule);
      assert !Unique(Run(lib, Start(map[], requests), schedule).items);
    }
  }

  // ---- One run ----

  /** If the next call of request `p` puts in a user, nobody else holds the email or the document of that user. */
  ghost predicate PutsUnheld(lib: Lib, c: Conf, p: nat) {
    IsWrite(lib, c, p) && !c.procs[p].phase.Deleting? ==> NobodyElseHolds(lib, c.items, c.procs[p].phase.user)
  }

  lemma StepKeepsUniqueExactly(lib: Lib, c: Conf, p: nat)
    requires Lawful(lib) && Unique(c.items)
    ensures Unique(Step(lib, c, p).items) <==> PutsUnheld(lib, c, p)
  {
    if !IsWrite(lib, c, p) {
      OnlyWritesChange(lib, c, p);
    } else if !c.procs[p].phase.Deleting? {
      WriteKeepsUniqueExactly(lib, c, p);
    }
  }

  lemma NextKeepsUniqueExactly(lib: Lib, c: Conf, schedule: seq<nat>, n: nat)
    requires Lawful(lib) && n < |schedule| && Unique(Run(lib, c, schedule[..n]).items)
    ensures Unique(Run(lib, c, schedule[..n + 1]).items) <==> PutsUnheld(lib, Run(lib, c, schedule[..n]), schedule[n])
  {
    StepKeepsUniqueExactly(lib, Run(lib, c, schedule[..n]), schedule[n]);
    assert schedule[..n + 1][..n] == schedule[..n];
  }

  ghost predicate AlwaysPutsUnheld(lib: Lib, c: Conf, schedule: seq<nat>) {
    forall n :: 0 <= n < |schedule| ==> PutsUnheld(lib, Run(lib, c, schedule[..n]), schedule[n])
  }

  lemma {:induction false} UniqueUpTo(lib: Lib, c: Conf, schedule: seq<nat>, n: nat)
    requires Lawful(lib) && Unique(c.items) && AlwaysPutsUnheld(lib, c, schedule) && n <= |schedule|
    ensures Unique(Run(lib, c, schedule[..n]).items)
  {
    if n > 0 {
      UniqueUpTo(lib, c, schedule, n - 1);
      NextKeepsUniqueExactly(lib, c, schedule, n - 1);
    }
  }

  /** A run is free of duplicates at every moment exactly when every write, at its own moment, puts in an email and a
      document that nobody else holds. */
  lemma RunKeepsUniqueExactly(lib: Lib, c: Conf, schedule: seq<nat>)
    requires Lawful(lib) && Unique(c.items)
    ensures (forall n :: 0 <= n <= |schedule| ==> Unique(Run(lib, c, schedule[..n]).items))
       <==> AlwaysPutsUnheld(lib, c, schedule)
  {
    if AlwaysPutsUnheld(lib, c, schedule) {
      forall n | 0 <= n <= |schedule| ensures Unique(Run(lib, c, schedule[..n]).items) {
        UniqueUpTo(lib, c, schedule, n);
      }
    } else {
      var n :| 0 <= n < |schedule| && !PutsUnheld(lib, Run(lib, c, schedule[..n]), schedule[n]);
      if Unique(Run(lib, c, schedule[..n]).items) {
        NextKeepsUniqueExactly(lib, c, schedule, n);
        assert !Unique(Run(lib, c, schedule[..n + 1]).items);
      }
    }
  }
}
