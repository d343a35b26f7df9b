/** Which writes of other requests leave a request's reads up to date, so that the run comes to the same as a
    serial one. */
module Conflicts {
  import opened Prelude
  import opened StrUtil
  import opened Library
  import opened UserDomain
  import opened Table
  import opened UserStore
  import opened UseCases
  import opened Serial
  import opened Interleaving
  import opened Reduction

  // ---- From one write to the next ----

  /** From up to date, a call that leaves the request in flight leads to where its calls so far and this one would. */
  lemma OwnCallKeepsCurrent(lib: Lib, items: Items, proc: Proc)
    requires UpToDate(lib, items, proc)
    ensures UpToDate(lib, items, proc.(phase := Call(lib, items, proc.request.env, proc.phase).1))
  {
    var to := Call(lib, items, proc.request.env, proc.phase).1;
    assert Leads(lib, items, proc.request.env, proc.phase, to);
  }

  /** A request's own call, and any call that is no write, leaves the request's reads up to date. */
  lemma CallKeepsCurrent(lib: Lib, c: Conf, q: nat, p: nat)
    requires CurrentAt(lib, c, p) && (q == p || !IsWrite(lib, c, q))
    ensures CurrentAt(lib, Step(lib, c, q), p)
  {
    if q != p {
      OnlyWritesChange(lib, c, q);
    } else if p < |c.procs| && !Step(lib, c, p).procs[p].phase.Finished? {
      OwnCallKeepsCurrent(lib, c.items, c.procs[p]);
      assert !IsWrite(lib, c, p);
      OnlyWritesChange(lib, c, p);
    }
  }

  /** Every write of another request in the run leaves the reads of request `p` up to date, if they are. */
  ghost predicate WritesKeepCurrent(lib: Lib, c: Conf, schedule: seq<nat>, p: nat) {
    forall i :: 0 <= i < |schedule| && WritesAtCall(lib, c, schedule, i) && schedule[i] != p
        && CurrentAt(lib, Run(lib, c, schedule[..i]), p)
      ==> CurrentAt(lib, Step(lib, Run(lib, c, schedule[..i]), schedule[i]), p)
  }

  lemma RunByOne(lib: Lib, c: Conf, schedule: seq<nat>, i: nat)
    requires i < |schedule|
    ensures Run(lib, c, schedule[..i + 1]) == Step(lib, Run(lib, c, schedule[..i]), schedule[i])
  {
    assert schedule[..i + 1][..i] == schedule[..i];
  }

  lemma NextIsCurrent(lib: Lib, c: Conf, schedule: seq<nat>, p: nat, i: nat)
    requires WritesKeepCurrent(lib, c, schedule, p) && i < |schedule| && CurrentAt(lib, Run(lib, c, schedule[..i]), p)
    ensures CurrentAt(lib, Run(lib, c, schedule[..i + 1]), p)
  {
    RunByOne(lib, c, schedule, i);
    if schedule[i] == p || !IsWrite(lib, Run(lib, c, schedule[..i]), schedule[i]) {
      CallKeepsCurrent(lib, Run(lib, c, schedule[..i]), schedule[i], p);
    } else {
      assert WritesAtCall(lib, c, schedule, i);
    }
  }

  lemma {:induction false} CurrentUpTo(lib: Lib, items: Items, requests: seq<Request>, schedule: seq<nat>, p: nat,
                                       i: nat)
    requires WritesKeepCurrent(lib, Start(items, requests), schedule, p) && i <= |schedule|
    ensures CurrentAt(lib, Run(lib, Start(items, requests), schedule[..i]), p)
  {
    if i == 0 {
      StartIsCurrent(lib, items, requests, p);
    } else {
      CurrentUpTo(lib, items, requests, schedule, p, i - 1);
      NextIsCurrent(lib, Start(items, requests), schedule, p, i - 1);
    }
  }

  lemma StartIsCurrent(lib: Lib, items: Items, requests: seq<Request>, p: nat)
    ensures CurrentAt(lib, Start(items, requests), p)
  {
    if p < |requests| {
      assert Start(items, requests).procs[p].phase == Initial(requests[p]);
    }
  }

  lemma KeptIsNeverOutdated(lib: Lib, items: Items, requests: seq<Request>, schedule: seq<nat>, p: nat)
    requires WritesKeepCurrent(lib, Start(items, requests), schedule, p)
    ensures NeverOutdated(lib, Start(items, requests), schedule, p)
  {
    forall i | 0 <= i <= |schedule| ensures CurrentAt(lib, Run(lib, Start(items, requests), schedule[..i]), p) {
      CurrentUpTo(lib, items, requests, schedule, p, i);
    }
  }

  // ---- No write in between ----

  /** No other request writes between the first call of request `p` and its last one. */
  ghost predicate NoWriteBetween(lib: Lib, c: Conf, schedule: seq<nat>, p: nat) {
    p < |c.procs| &&
    forall i :: 0 <= i < |schedule| && WritesAtCall(lib, c, schedule, i) && schedule[i] != p && p in schedule[..i]
      ==> FinishedBy(lib, c, schedule[..i], p)
  }

  ghost predicate FinishedBy(lib: Lib, c: Conf, schedule: seq<nat>, p: nat) {
    var now := Run(lib, c, schedule);
    p < |now.procs| && now.procs[p].phase.Finished?
  }

  /** Then its reads are never out of date, whatever the library. */
  lemma NoWriteBetweenIsEnough(lib: Lib, items: Items, requests: seq<Request>, schedule: seq<nat>, p: nat)
    requires NoWriteBetween(lib, Start(items, requests), schedule, p)
    ensures NeverOutdated(lib, Start(items, requests), schedule, p)
  {
    var start := Start(items, requests);
    forall i | 0 <= i < |schedule| && WritesAtCall(lib, start, schedule, i) && schedule[i] != p
      ensures CurrentAt(lib, Step(lib, Run(lib, start, schedule[..i]), schedule[i]), p)
    {
      RunKeepsRequests(lib, start, schedule[..i]);
      var after := Step(lib, Run(lib, start, schedule[..i]), schedule[i]);
      if p !in schedule[..i] {
        assert after.procs[p].phase == Initial(requests[p]);
      } else {
        assert FinishedBy(lib, start, schedule[..i], p);
      }
    }
    KeptIsNeverOutdated(lib, items, requests, schedule, p);
  }

  /** A run in which no write of another request falls between the first call of a writing request and its write
      leaves the table of the serial run of the writing requests in the order of their writes. */
  lemma UndisturbedRunsAreSerial(lib: Lib, items: Items, requests: seq<Request>, schedule: seq<nat>, writers: set<nat>)
    requires var start := Start(items, requests);
      && AllWriters(lib, start, schedule, writers)
      && forall p :: p in writers ==> NoWriteBetween(lib, start, schedule, p)
    ensures var start := Start(items, requests);
      var order := FinishOrder(lib, start, schedule, writers);
      && Run(lib, start, schedule).items == SerialRun(lib, items, order)
      && FinishAnswers(lib, start, schedule, writers) == Answers(lib, items, order)
  {
    forall p | p in writers ensures NeverOutdated(lib, Start(items, requests), schedule, p) {
      NoWriteBetweenIsEnough(lib, items, requests, schedule, p);
    }
    SerialReduction(lib, items, requests, schedule, writers);
  }

  // ---- Writes that touch nothing the request has read ----

  predicate PutsEmail(writer: Phase, email: string) {
    (writer.Creating? || writer.Saving?) && writer.user.email.text == email
  }

  predicate PutsDocument(writer: Phase, document: string) {
    (writer.Creating? || writer.Saving?) && writer.user.document.value == document
  }

  predicate WritesUser(writer: Phase, id: Uuid) {
    ((writer.Creating? || writer.Saving?) && writer.user.id == id) || (writer.Deleting? && writer.id == id)
  }

  /** The write is to the user that the request has loaded, or puts in the document or the email that the request
      has found free. */
  predicate Touches(writer: Phase, proc: Proc) {
    match proc.phase
    case CheckingEmail(input) => PutsDocument(writer, DigitsOf(input.document.value))
    case Creating(_) =>
      && proc.request.Create?
      && (PutsDocument(writer, DigitsOf(proc.request.create.document.value))
          || PutsEmail(writer, proc.request.create.email.text))
    case CheckingNewEmail(_, u) => WritesUser(writer, u.id)
    case Saving(u) =>
      || WritesUser(writer, u.id)
      || (proc.request.Update? && proc.request.update.email.Some?
          && PutsEmail(writer, proc.request.update.email.value.text))
    case _ => false
  }

  /** A write leaves every other user as it was. */
  lemma OthersStay(lib: Lib, c: Conf, q: nat, id: Uuid)
    requires Lawful(lib) && IsWrite(lib, c, q) && !WritesUser(c.procs[q].phase, id)
    ensures var items' := Step(lib, c, q).items;
      var key := lib.uuidText(id);
      (key in items' <==> key in c.items) && (key in c.items ==> items'[key] == c.items[key])
  {
    var writer := c.procs[q].phase;
    var target := if writer.Deleting? then writer.id else writer.user.id;
    if lib.uuidText(target) == lib.uuidText(id) {
      UuidTextInjective(lib, target, id);
    }
  }

  /** An email, or a document, that a write does not put in has not come in. */
  lemma EmailStaysOut(lib: Lib, c: Conf, q: nat, email: string)
    requires IsWrite(lib, c, q) && !PutsEmail(c.procs[q].phase, email)
    ensures HasEmail(Step(lib, c, q).items, email) ==> HasEmail(c.items, email)
  {
  }

  lemma DocumentStaysOut(lib: Lib, c: Conf, q: nat, document: string)
    requires IsWrite(lib, c, q) && !PutsDocument(c.procs[q].phase, document)
    ensures HasDocument(Step(lib, c, q).items, document) ==> HasDocument(c.items, document)
  {
  }

  /** A check that found the email free finds it free again when it has not come in. */
  lemma StillFree(lib: Lib, items: Items, items': Items, email: string, env: Env)
    requires Lawful(lib) && WellFormed(lib, items) && WellFormed(lib, items')
    requires HasEmail(items', email) ==> HasEmail(items, email)
    requires !EmailExists(lib, items, email, env.pick, env.id2, env.now)
    ensures !EmailExists(lib, items', email, env.pick, env.id2, env.now)
  {
    ExistsByEmailExact(lib, items, email, env.pick, env.id2, env.now);
    ExistsByEmailExact(lib, items', email, env.pick, env.id2, env.now);
  }

  lemma SameDocumentCheck(lib: Lib, items: Items, items': Items, env: Env, input: CreateInput)
    requires Leads(lib, items, env, CheckingDocument(input), CheckingEmail(input))
    requires HasDocument(items', DigitsOf(input.document.value)) ==> HasDocument(items, DigitsOf(input.document.value))
    ensures Leads(lib, items', env, CheckingDocument(input), CheckingEmail(input))
  {
  }

  lemma SameEmailCheck(lib: Lib, items: Items, items': Items, env: Env, input: CreateInput, u: UserRecord)
    requires Lawful(lib) && WellFormed(lib, items) && WellFormed(lib, items')
    requires Leads(lib, items, env, CheckingEmail(input), Creating(u))
    requires HasEmail(items', input.email.text) ==> HasEmail(items, input.email.text)
    ensures Leads(lib, items', env, CheckingEmail(input), Creating(u))
  {
    StillFree(lib, items, items', input.email.text, env);
  }

  lemma SameLoad(lib: Lib, items: Items, items': Items, env: Env, input: UpdateInput, to: Phase)
    requires Leads(lib, items, env, Loading(input), to)
    requires var key := lib.uuidText(input.id);
      (key in items' <==> key in items) && (key in items ==> items'[key] == items[key])
    ensures Leads(lib, items', env, Loading(input), to)
  {
  }

  lemma SameNewEmailCheck(lib: Lib, items: Items, items': Items, env: Env, email: Email, u: UserRecord, to: Phase)
    requires Lawful(lib) && WellFormed(lib, items) && WellFormed(lib, items')
    requires Leads(lib, items, env, CheckingNewEmail(email, u), to) && !to.Finished?
    requires HasEmail(items', email.text) ==> HasEmail(items, email.text)
    ensures Leads(lib, items', env, CheckingNewEmail(email, u), to)
  {
    StillFree(lib, items, items', email.text, env);
  }

  lemma CreateStaysCurrent(lib: Lib, items: Items, items': Items, proc: Proc)
    requires Lawful(lib) && WellFormed(lib, items) && WellFormed(lib, items')
    requires proc.request.Create? && UpToDate(lib, items, proc) && !proc.phase.Finished?
    requires var d := DigitsOf(proc.request.create.document.value);
      proc.phase != Initial(proc.request) && HasDocument(items', d) ==> HasDocument(items, d)
    requires var e := proc.request.create.email.text;
      proc.phase.Creating? && HasEmail(items', e) ==> HasEmail(items, e)
    ensures UpToDate(lib, items', proc)
  {
    var r := proc.request;
    if proc.phase != Initial(r) {
      SameDocumentCheck(lib, items, items', r.env, r.create);
      if proc.phase.Creating? {
        SameEmailCheck(lib, items, items', r.env, r.create, proc.phase.user);
      }
    }
  }

  lemma UpdateStaysCurrent(lib: Lib, items: Items, items': Items, proc: Proc)
    requires Lawful(lib) && WellFormed(lib, items) && WellFormed(lib, items') && GoodRequest(lib, proc.request)
    requires proc.request.Update? && UpToDate(lib, items, proc) && !proc.phase.Finished?
    requires var key := lib.uuidText(proc.request.update.id);
      proc.phase != Initial(proc.request) ==>
        (key in items' <==> key in items) && (key in items ==> items'[key] == items[key])
    requires proc.phase.Saving? && proc.request.update.email.Some? ==>
      (HasEmail(items', proc.request.update.email.value.text) ==> HasEmail(items, proc.request.update.email.value.text))
    ensures UpToDate(lib, items', proc)
  {
    var r := proc.request;
    if proc.phase != Initial(r) {
      if Leads(lib, items, r.env, Initial(r), proc.phase) {
        SameLoad(lib, items, items', r.env, r.update, proc.phase);
      } else {
        var email, u :| Leads(lib, items, r.env, Initial(r), CheckingNewEmail(email, u))
          && Leads(lib, items, r.env, CheckingNewEmail(email, u), proc.phase);
        LoadLeadsTo(lib, items, r.update, r.env);
        SameLoad(lib, items, items', r.env, r.update, CheckingNewEmail(email, u));
        SameNewEmailCheck(lib, items, items', r.env, email, u, proc.phase);
      }
    }
  }

  /** The user that an update in flight holds is the one it is about. */
  lemma HoldsItsUser(lib: Lib, items: Items, proc: Proc)
    requires Lawful(lib) && WellFormed(lib, items) && GoodRequest(lib, proc.request)
    requires proc.request.Update? && UpToDate(lib, items, proc)
    requires !proc.phase.Finished? && proc.phase != Initial(proc.request)
    ensures (proc.phase.CheckingNewEmail? || proc.phase.Saving?) && proc.phase.user.id == proc.request.update.id
  {
    var r := proc.request;
    LoadLeadsTo(lib, items, r.update, r.env);
  }

  /** A write that touches nothing the request has read leaves the request's reads up to date. */
  lemma UntouchedStaysCurrent(lib: Lib, c: Conf, q: nat, p: nat)
    requires Lawful(lib) && WellFormed(lib, c.items) && GoodProcs(lib, c) && IsWrite(lib, c, q)
    requires q != p && p < |c.procs| && !Touches(c.procs[q].phase, c.procs[p]) && CurrentAt(lib, c, p)
    ensures CurrentAt(lib, Step(lib, c, q), p)
  {
    var proc, items' := c.procs[p], Step(lib, c, q).items;
    CallKeepsGood(lib, c.items, c.procs[q]);
    if !proc.phase.Finished? && proc.phase != Initial(proc.request) {
      match proc.request
      case Create(input, _) =>
        DocumentStaysOut(lib, c, q, DigitsOf(input.document.value));
        if proc.phase.Creating? {
          EmailStaysOut(lib, c, q, input.email.text);
        }
        CreateStaysCurrent(lib, c.items, items', proc);
      case Update(input, _) =>
        HoldsItsUser(lib, c.items, proc);
        OthersStay(lib, c, q, input.id);
        if proc.phase.Saving? && input.email.Some? {
          EmailStaysOut(lib, c, q, input.email.value.text);
        }
        UpdateStaysCurrent(lib, c.items, items', proc);
      case Delete(_, _) =>
    }
  }

  /** No write of another request touches what request `p` has read by then. */
  ghost predicate NeverTouched(lib: Lib, c: Conf, schedule: seq<nat>, p: nat) {
    forall i :: 0 <= i < |schedule| && WritesAtCall(lib, c, schedule, i) && schedule[i] != p ==>
      var now := Run(lib, c, schedule[..i]);
      p < |now.procs| && schedule[i] < |now.procs| && !Touches(now.procs[schedule[i]].phase, now.procs[p])
  }

  /** A request that no write touches is never out of date. */
  lemma NeverTouchedIsEnough(lib: Lib, items: Items, requests: seq<Request>, schedule: seq<nat>, p: nat)
    requires Lawful(lib) && WellFormed(lib, items) && GoodRequests(lib, requests)
    requires NeverTouched(lib, Start(items, requests), schedule, p)
    ensures NeverOutdated(lib, Start(items, requests), schedule, p)
  {
    var start := Start(items, requests);
    StartIsGood(lib, items, requests);
    forall i | 0 <= i < |schedule| && WritesAtCall(lib, start, schedule, i) && schedule[i] != p
        && CurrentAt(lib, Run(lib, start, schedule[..i]), p)
      ensures CurrentAt(lib, Step(lib, Run(lib, start, schedule[..i]), schedule[i]), p)
    {
      WellFormedUnderInterleaving(lib, start, schedule[..i]);
      UntouchedStaysCurrent(lib, Run(lib, start, schedule[..i]), schedule[i], p);
    }
    KeptIsNeverOutdated(lib, items, requests, schedule, p);
  }

  /** So when no write touches what a writing request has read before it writes, whatever else the requests do at the
      same time, the run leaves the table of the serial run of the writing requests in the order of their writes, and
      keeps all that serial runs keep. */
  lemma UntouchedRunsAreSerial(lib: Lib, items: Items, requests: seq<Request>, schedule: seq<nat>, writers: set<nat>)
    requires Lawful(lib) && StoreInvariant(lib, items) && GoodRequests(lib, requests)
    requires var start := Start(items, requests);
      && AllWriters(lib, start, schedule, writers)
      && forall p :: p in writers ==> NeverTouched(lib, start, schedule, p)
    ensures var start := Start(items, requests);
      var order := FinishOrder(lib, start, schedule, writers);
      var after := Run(lib, start, schedule).items;
      && after == SerialRun(lib, items, order)
      && FinishAnswers(lib, start, schedule, writers) == Answers(lib, items, order)
      && StoreInvariant(lib, after)
  {
    forall p | p in writers ensures NeverOutdated(lib, Start(items, requests), schedule, p) {
      NeverTouchedIsEnough(lib, items, requests, schedule, p);
    }
    SerialReduction(lib, items, requests, schedule, writers);
    CurrentRunsKeepInvariant(lib, items, requests, schedule, writers);
  }
}
