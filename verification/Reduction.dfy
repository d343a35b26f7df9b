/** When an interleaved run comes to the same as a serial one: while what the requests have read is up to date. */
module Reduction {
  import opened Prelude
  import opened Library
  import opened UserDomain
  import opened Table
  import opened UserStore
  import opened UseCases
  import opened Serial
  import opened Interleaving

  // ---- A use case is its calls ----

  function CallsLeft(phase: Phase): nat {
    match phase
    case CheckingDocument(_) => 3
    case CheckingEmail(_) => 2
    case Creating(_) => 1
    case Loading(_) => 3
    case CheckingNewEmail(_, _) => 2
    case Saving(_) => 1
    case Deleting(_) => 1
    case Finished(_) => 0
  }

  lemma CallsDecrease(lib: Lib, items: Items, env: Env, phase: Phase)
    requires !phase.Finished?
    ensures CallsLeft(Call(lib, items, env, phase).1) < CallsLeft(phase)
  {
  }

  /** The calls a request has left, made at once. */
  ghost function Finish(lib: Lib, items: Items, env: Env, phase: Phase): (Items, Outcome)
    decreases CallsLeft(phase)
  {
    if phase.Finished? then (items, phase.outcome)
    else
      CallsDecrease(lib, items, env, phase);
      var (items', phase') := Call(lib, items, env, phase);
      Finish(lib, items', env, phase')
  }

  lemma FinishWriting(lib: Lib, items: Items, env: Env, u: UserRecord)
    ensures Finish(lib, items, env, Creating(u)) == WriteNew(lib, items, u, env)
    ensures Finish(lib, items, env, Saving(u)) == WriteOver(lib, items, u, env)
  {
    var created := Call(lib, items, env, Creating(u));
    assert Finish(lib, items, env, Creating(u)) == Finish(lib, created.0, env, created.1);
    var saved := Call(lib, items, env, Saving(u));
    assert Finish(lib, items, env, Saving(u)) == Finish(lib, saved.0, env, saved.1);
  }

  lemma FinishOne(lib: Lib, items: Items, env: Env, phase: Phase)
    requires !phase.Finished?
    ensures var (items', phase') := Call(lib, items, env, phase);
      Finish(lib, items, env, phase) == Finish(lib, items', env, phase')
  {
  }

  lemma CreateIsItsCalls(lib: Lib, items: Items, input: CreateInput, env: Env)
    ensures Finish(lib, items, env, CheckingDocument(input)) == ExecCreate(lib, items, input, env)
  {
    FinishOne(lib, items, env, CheckingDocument(input));
    FinishOne(lib, items, env, CheckingEmail(input));
    if NewUserOf(input, env).Some? {
      FinishWriting(lib, items, env, NewUserOf(input, env).value);
    }
  }

  lemma UpdateIsItsCalls(lib: Lib, items: Items, input: UpdateInput, env: Env)
    ensures Finish(lib, items, env, Loading(input)) == ExecUpdate(lib, items, input, env)
  {
    FinishOne(lib, items, env, Loading(input));
    var loaded := ReadByID(lib, items, input.id, env.id1, env.now);
    if env.up1 && loaded.Some? && ChangeFields(loaded.value, input, env.touch).Some? {
      var u := ChangeFields(loaded.value, input, env.touch).value;
      FinishWriting(lib, items, env, u);
      if ChangesEmail(u, input) {
        FinishOne(lib, items, env, CheckingNewEmail(input.email.value, u));
        FinishWriting(lib, items, env, WithEmail(u, input.email.value, env.touch.email));
      }
    }
  }

  /** Run without interruption, the calls of a request do exactly what its use case does. */
  lemma ExecIsItsCalls(lib: Lib, items: Items, r: Request)
    ensures Finish(lib, items, r.env, Initial(r)) == Exec(lib, items, r)
  {
    match r
    case Create(input, env) => CreateIsItsCalls(lib, items, input, env);
    case Update(input, env) => UpdateIsItsCalls(lib, items, input, env);
    case Delete(id, env) => FinishOne(lib, items, env, Deleting(id));
  }

  // ---- Reduction to serial runs ----

  /** The next call of request `p` changes the table, or at least rewrites it. */
  ghost predicate IsWrite(lib: Lib, c: Conf, p: nat) {
    && p < |c.procs|
    && var proc := c.procs[p];
       && (proc.phase.Creating? || proc.phase.Saving? || proc.phase.Deleting?)
       && Call(lib, c.items, proc.request.env, proc.phase).1 == Finished(Success)
  }

  ghost predicate WritesAtCall(lib: Lib, c: Conf, schedule: seq<nat>, i: nat)
    requires i < |schedule|
  {
    IsWrite(lib, Run(lib, c, schedule[..i]), schedule[i])
  }

  lemma {:induction false} RunKeepsRequests(lib: Lib, c: Conf, schedule: seq<nat>)
    ensures var c' := Run(lib, c, schedule);
      && |c'.procs| == |c.procs|
      && (forall p :: 0 <= p < |c.procs| ==> c'.procs[p].request == c.procs[p].request)
      && (forall p :: 0 <= p < |c.procs| && p !in schedule ==> c'.procs[p] == c.procs[p])
  {
    if schedule != [] {
      var n := |schedule| - 1;
      RunKeepsRequests(lib, c, schedule[..n]);
      assert forall p :: p in schedule[..n] ==> p in schedule;
    }
  }

  /** A call that is no write leaves the table as it is. */
  lemma OnlyWritesChange(lib: Lib, c: Conf, p: nat)
    requires !IsWrite(lib, c, p)
    ensures Step(lib, c, p).items == c.items
  {
  }

  /** Request `p` made the write of its use case somewhere in the run. */
  ghost predicate Wrote(lib: Lib, c: Conf, schedule: seq<nat>, p: nat) {
    exists i :: 0 <= i < |schedule| && schedule[i] == p && WritesAtCall(lib, c, schedule, i)
  }

  lemma WrotePrefix(lib: Lib, c: Conf, schedule: seq<nat>, p: nat)
    requires schedule != []
    ensures var n := |schedule| - 1;
      var writesNow := schedule[n] == p && IsWrite(lib, Run(lib, c, schedule[..n]), p);
      Wrote(lib, c, schedule, p) <==> Wrote(lib, c, schedule[..n], p) || writesNow
  {
    var n := |schedule| - 1;
    forall i | 0 <= i < n
      ensures WritesAtCall(lib, c, schedule, i) == WritesAtCall(lib, c, schedule[..n], i)
    {
      assert schedule[..n][..i] == schedule[..i];
    }
    if Wrote(lib, c, schedule[..n], p) {
      var i :| 0 <= i < n && schedule[..n][i] == p && WritesAtCall(lib, c, schedule[..n], i);
      assert schedule[i] == p && WritesAtCall(lib, c, schedule, i);
    }
    if schedule[n] == p && IsWrite(lib, Run(lib, c, schedule[..n]), p) {
      assert WritesAtCall(lib, c, schedule, n);
    }
  }

  lemma CallSucceeds(lib: Lib, c: Conf, p: nat)
    requires p < |c.procs|
    ensures Step(lib, c, p).procs[p].phase == Finished(Success)
       <==> IsWrite(lib, c, p) || c.procs[p].phase == Finished(Success)
  {
  }

  /** All or nothing under any interleaving: a request has answered success exactly when it has made its write, so
      one that has answered an error, or nothing yet, has not changed the table. */
  lemma {:induction false} SucceedsIffWrote(lib: Lib, items: Items, requests: seq<Request>, schedule: seq<nat>, p: nat)
    requires p < |requests|
    ensures var c := Run(lib, Start(items, requests), schedule);
      && p < |c.procs|
      && (c.procs[p].phase == Finished(Success) <==> Wrote(lib, Start(items, requests), schedule, p))
  {
    var start := Start(items, requests);
    RunKeepsRequests(lib, start, schedule);
    if schedule != [] {
      var n := |schedule| - 1;
      SucceedsIffWrote(lib, items, requests, schedule[..n], p);
      WrotePrefix(lib, start, schedule, p);
      if schedule[n] == p {
        CallSucceeds(lib, Run(lib, start, schedule[..n]), p);
      }
    }
  }

  // ---- Requests whose reads are up to date ----

  /** Made on this table, the call leads from one phase to the other. */
  ghost predicate Leads(lib: Lib, items: Items, env: Env, from: Phase, to: Phase) {
    Call(lib, items, env, from).1 == to
  }

  /** Made anew on the table as it is now, the calls of the request would bring it to where it stands. */
  ghost predicate UpToDate(lib: Lib, items: Items, proc: Proc) {
    var r := proc.request;
    match proc.phase
    case CheckingEmail(input) =>
      r.Create? && input == r.create && Leads(lib, items, r.env, Initial(r), proc.phase)
    case Creating(_) =>
      && r.Create? && Leads(lib, items, r.env, Initial(r), CheckingEmail(r.create))
      && Leads(lib, items, r.env, CheckingEmail(r.create), proc.phase)
    case CheckingNewEmail(_, _) =>
      r.Update? && Leads(lib, items, r.env, Initial(r), proc.phase)
    case Saving(_) =>
      && r.Update?
      && (|| Leads(lib, items, r.env, Initial(r), proc.phase)
          || exists email, u :: Leads(lib, items, r.env, Initial(r), CheckingNewEmail(email, u))
               && Leads(lib, items, r.env, CheckingNewEmail(email, u), proc.phase))
    case Finished(_) => true
    case _ => proc.phase == Initial(r)
  }

  /** A call after which the request is still in flight was a read. */
  lemma LeadsByReading(lib: Lib, items: Items, env: Env, from: Phase, to: Phase)
    requires Leads(lib, items, env, from, to) && !to.Finished?
    ensures Call(lib, items, env, from) == (items, to)
    ensures Finish(lib, items, env, from) == Finish(lib, items, env, to)
  {
    FinishOne(lib, items, env, from);
  }

  /** A request in flight whose reads are up to date will, from here, do what its whole use case would do now. */
  lemma OnTrack(lib: Lib, items: Items, proc: Proc)
    requires UpToDate(lib, items, proc) && !proc.phase.Finished?
    ensures Finish(lib, items, proc.request.env, proc.phase) == Exec(lib, items, proc.request)
  {
    var r := proc.request;
    ExecIsItsCalls(lib, items, r);
    if proc.phase != Initial(r) {
      if Leads(lib, items, r.env, Initial(r), proc.phase) {
        LeadsByReading(lib, items, r.env, Initial(r), proc.phase);
      } else {
        var middle :| Leads(lib, items, r.env, Initial(r), middle) && Leads(lib, items, r.env, middle, proc.phase)
          && !middle.Finished?;
        LeadsByReading(lib, items, r.env, Initial(r), middle);
        LeadsByReading(lib, items, r.env, middle, proc.phase);
      }
    }
  }

  /** At every moment of the run, request `p` is finished or its reads are up to date. */
  ghost predicate NeverOutdated(lib: Lib, c: Conf, schedule: seq<nat>, p: nat) {
    forall i :: 0 <= i <= |schedule| ==> CurrentAt(lib, Run(lib, c, schedule[..i]), p)
  }

  ghost predicate CurrentAt(lib: Lib, c: Conf, p: nat) {
    p < |c.procs| && !c.procs[p].phase.Finished? ==> UpToDate(lib, c.items, c.procs[p])
  }

  // ---- Reduction to serial runs ----

  ghost predicate FinishesNow(lib: Lib, c: Conf, p: nat) {
    p < |c.procs| && !c.procs[p].phase.Finished? && Step(lib, c, p).procs[p].phase.Finished?
  }

  /** The requests of `observed`, in the order of their last calls. */
  ghost function FinishOrder(lib: Lib, c: Conf, schedule: seq<nat>, observed: set<nat>): seq<Request> {
    if schedule == [] then []
    else
      var n := |schedule| - 1;
      var p := schedule[n];
      var order := FinishOrder(lib, c, schedule[..n], observed);
      var before := Run(lib, c, schedule[..n]);
      if p in observed && FinishesNow(lib, before, p) then order + [before.procs[p].request] else order
  }

  /** What they answered. */
  ghost function FinishAnswers(lib: Lib, c: Conf, schedule: seq<nat>, observed: set<nat>): seq<Outcome> {
    if schedule == [] then []
    else
      var n := |schedule| - 1;
      var p := schedule[n];
      var answers := FinishAnswers(lib, c, schedule[..n], observed);
      var before := Run(lib, c, schedule[..n]);
      if p in observed && FinishesNow(lib, before, p) then answers + [Step(lib, before, p).procs[p].phase.outcome]
      else answers
  }

  /** Every request that writes in the run is in `observed`. */
  ghost predicate AllWriters(lib: Lib, c: Conf, schedule: seq<nat>, observed: set<nat>) {
    forall i :: 0 <= i < |schedule| && WritesAtCall(lib, c, schedule, i) ==> schedule[i] in observed
  }

  lemma PrefixKeeps(lib: Lib, c: Conf, schedule: seq<nat>, observed: set<nat>)
    requires schedule != []
    requires AllWriters(lib, c, schedule, observed) && forall p :: p in observed ==> NeverOutdated(lib, c, schedule, p)
    ensures var front := schedule[..|schedule| - 1];
      AllWriters(lib, c, front, observed) && forall p :: p in observed ==> NeverOutdated(lib, c, front, p)
  {
    var front := schedule[..|schedule| - 1];
    forall i | 0 <= i < |front| && WritesAtCall(lib, c, front, i) ensures front[i] in observed {
      assert front[..i] == schedule[..i];
      assert WritesAtCall(lib, c, schedule, i);
    }
    forall p, i | p in observed && 0 <= i <= |front| ensures CurrentAt(lib, Run(lib, c, front[..i]), p) {
      assert front[..i] == schedule[..i];
      assert NeverOutdated(lib, c, schedule, p);
    }
  }

  /** The last call of a request whose reads are up to date does to the table, and answers, what its whole use case
      would. */
  lemma LastCall(lib: Lib, c: Conf, p: nat)
    requires FinishesNow(lib, c, p) && CurrentAt(lib, c, p)
    ensures var proc := Step(lib, c, p).procs[p];
      (Step(lib, c, p).items, proc.phase.outcome) == Exec(lib, c.items, proc.request)
  {
    OnTrack(lib, c.items, c.procs[p]);
    FinishOne(lib, c.items, c.procs[p].request.env, c.procs[p].phase);
  }

  /** Observe some requests of an interleaved run, all the writing ones among them. When the reads of each are up to
      date until it finishes, the run leaves the same table as the serial run of the observed requests in the order
      of their last calls, and each of them gets the same answer in both. */
  lemma {:induction false} SerialReduction(lib: Lib, items: Items, requests: seq<Request>, schedule: seq<nat>,
                                           observed: set<nat>)
    requires var start := Start(items, requests);
      && AllWriters(lib, start, schedule, observed)
      && forall p :: p in observed ==> NeverOutdated(lib, start, schedule, p)
    ensures var start := Start(items, requests);
      var order := FinishOrder(lib, start, schedule, observed);
      && Run(lib, start, schedule).items == SerialRun(lib, items, order)
      && FinishAnswers(lib, start, schedule, observed) == Answers(lib, items, order)
  {
    if schedule != [] {
      var start := Start(items, requests);
      var n := |schedule| - 1;
      var p := schedule[n];
      PrefixKeeps(lib, start, schedule, observed);
      SerialReduction(lib, items, requests, schedule[..n], observed);
      var before := Run(lib, start, schedule[..n]);
      if p in observed && FinishesNow(lib, before, p) {
        assert NeverOutdated(lib, start, schedule, p);
        assert CurrentAt(lib, before, p);
        LastCall(lib, before, p);
        var order := FinishOrder(lib, start, schedule, observed);
        assert order[..|order| - 1] == FinishOrder(lib, start, schedule[..n], observed);
      } else {
        assert WritesAtCall(lib, start, schedule, n) == IsWrite(lib, before, p);
        OnlyWritesChange(lib, before, p);
      }
    }
  }

  lemma {:induction false} FinishOrderIsGood(lib: Lib, c: Conf, schedule: seq<nat>, observed: set<nat>)
    requires forall p :: 0 <= p < |c.procs| ==> GoodRequest(lib, c.procs[p].request)
    ensures GoodRequests(lib, FinishOrder(lib, c, schedule, observed))
  {
    if schedule != [] {
      FinishOrderIsGood(lib, c, schedule[..|schedule| - 1], observed);
      RunKeepsRequests(lib, c, schedule[..|schedule| - 1]);
    }
  }

  /** So a run in which no writer is outdated keeps everything a serial run keeps; uniqueness in particular. */
  lemma CurrentRunsKeepInvariant(lib: Lib, items: Items, requests: seq<Request>, schedule: seq<nat>, writers: set<nat>)
    requires Lawful(lib) && StoreInvariant(lib, items) && GoodRequests(lib, requests)
    requires var start := Start(items, requests);
      && AllWriters(lib, start, schedule, writers)
      && forall p :: p in writers ==> NeverOutdated(lib, start, schedule, p)
    ensures StoreInvariant(lib, Run(lib, Start(items, requests), schedule).items)
  {
    var start := Start(items, requests);
    SerialReduction(lib, items, requests, schedule, writers);
    FinishOrderIsGood(lib, start, schedule, writers);
    SerialRunKeepsInvariant(lib, items, FinishOrder(lib, start, schedule, writers));
  }
}
