/** When a deletion is final: whole runs after the removal of a user. */
module Deletion {
  import opened Prelude
  import opened StrUtil
  import opened Library
  import opened UserDomain
  import opened Table
  import opened UserStore
  import opened UseCases
  import opened Serial
  import opened Interleaving
  import opened Reduction
  import opened Races

  // ---- Serial runs ----

  predicate Creates(r: Request, id: Uuid) {
    r.Create? && r.env.newId == id
  }

  ghost predicate NoneCreates(requests: seq<Request>, id: Uuid) {
    forall i :: 0 <= i < |requests| ==> !Creates(requests[i], id)
  }

  lemma ExecKeepsGone(lib: Lib, items: Items, r: Request, id: Uuid)
    requires Lawful(lib) && WellFormed(lib, items) && GoodRequest(lib, r)
    requires lib.uuidText(id) !in items && !Creates(r, id)
    ensures lib.uuidText(id) !in Exec(lib, items, r).0
  {
    match r
    case Create(input, env) =>
      CreateEffect(lib, items, input, env);
      if lib.uuidText(env.newId) == lib.uuidText(id) {
        UuidTextInjective(lib, env.newId, id);
      }
    case Update(input, env) => UpdateEffect(lib, items, input, env);
    case Delete(_, _) =>
  }

  /** Serially a deletion is final: no run without a create under that very identifier stores the user again. */
  lemma {:induction false} GoneStaysGone(lib: Lib, items: Items, requests: seq<Request>, id: Uuid)
    requires Lawful(lib) && StoreInvariant(lib, items) && GoodRequests(lib, requests)
    requires lib.uuidText(id) !in items && NoneCreates(requests, id)
    ensures lib.uuidText(id) !in SerialRun(lib, items, requests)
  {
    if requests != [] {
      var n := |requests| - 1;
      GoneStaysGone(lib, items, requests[..n], id);
      SerialRunKeepsInvariant(lib, items, requests[..n]);
      ExecKeepsGone(lib, SerialRun(lib, items, requests[..n]), requests[n], id);
    }
  }

  // ---- Interleaved runs ----

  /** The request can still write the user: it holds the user in memory, or is a create of this identifier, and the
      database answers the calls it has left. */
  predicate MayBring(proc: Proc, id: Uuid) {
    var env := proc.request.env;
    match proc.phase
    case CheckingDocument(input) => env.newId == id && AllUp(env) && NewUserOf(input, env).Some?
    case CheckingEmail(input) => env.newId == id && env.up2 && env.upWrite && NewUserOf(input, env).Some?
    case Creating(u) => u.id == id && env.upWrite
    case CheckingNewEmail(_, u) => u.id == id && env.up2 && env.upWrite
    case Saving(u) => u.id == id && env.upWrite
    case _ => false
  }

  ghost predicate NobodyBrings(c: Conf, id: Uuid) {
    forall p :: 0 <= p < |c.procs| ==> !MayBring(c.procs[p], id)
  }

  /** One call of a request that cannot bring the user back neither does so nor enables the request to. */
  lemma CallKeepsGone(lib: Lib, items: Items, proc: Proc, id: Uuid)
    requires Lawful(lib) && WellFormed(lib, items) && GoodProc(lib, proc)
    requires lib.uuidText(id) !in items && !MayBring(proc, id)
    ensures var (items', phase') := Call(lib, items, proc.request.env, proc.phase);
      lib.uuidText(id) !in items' && !MayBring(proc.(phase := phase'), id)
  {
    match proc.phase
    case Loading(input) => LoadKeepsGone(lib, items, proc, id);
    case Creating(u) => WriteKeepsGone(lib, items, proc, id);
    case Saving(u) => WriteKeepsGone(lib, items, proc, id);
    case Deleting(_) =>
    case Finished(_) =>
    case _ => CheckKeepsGone(lib, items, proc, id);
  }

  lemma LoadKeepsGone(lib: Lib, items: Items, proc: Proc, id: Uuid)
    requires Lawful(lib) && WellFormed(lib, items) && GoodProc(lib, proc) && proc.phase.Loading?
    requires lib.uuidText(id) !in items
    ensures var (items', phase') := Call(lib, items, proc.request.env, proc.phase);
      items' == items && !MayBring(proc.(phase := phase'), id)
  {
    LoadLeadsTo(lib, items, proc.phase.update, proc.request.env);
  }

  lemma WriteKeepsGone(lib: Lib, items: Items, proc: Proc, id: Uuid)
    requires Lawful(lib) && (proc.phase.Creating? || proc.phase.Saving?)
    requires lib.uuidText(id) !in items && !MayBring(proc, id)
    ensures lib.uuidText(id) !in Call(lib, items, proc.request.env, proc.phase).0
    ensures Call(lib, items, proc.request.env, proc.phase).1.Finished?
  {
    if lib.uuidText(proc.phase.user.id) == lib.uuidText(id) {
      UuidTextInjective(lib, proc.phase.user.id, id);
    }
  }

  lemma CheckKeepsGone(lib: Lib, items: Items, proc: Proc, id: Uuid)
    requires GoodProc(lib, proc) && !MayBring(proc, id)
    requires proc.phase.CheckingDocument? || proc.phase.CheckingEmail? || proc.phase.CheckingNewEmail?
    ensures var (items', phase') := Call(lib, items, proc.request.env, proc.phase);
      items' == items && !MayBring(proc.(phase := phase'), id)
  {
  }

  /** When no request in flight can bring the user back, none ever does. */
  lemma {:induction false} NobodyBringsStays(lib: Lib, c: Conf, schedule: seq<nat>, id: Uuid)
    requires Lawful(lib) && WellFormed(lib, c.items) && GoodProcs(lib, c)
    requires lib.uuidText(id) !in c.items && NobodyBrings(c, id)
    ensures var c' := Run(lib, c, schedule); lib.uuidText(id) !in c'.items && NobodyBrings(c', id)
  {
    if schedule != [] {
      var n := |schedule| - 1;
      NobodyBringsStays(lib, c, schedule[..n], id);
      WellFormedUnderInterleaving(lib, c, schedule[..n]);
      var before := Run(lib, c, schedule[..n]);
      if schedule[n] < |before.procs| {
        CallKeepsGone(lib, before.items, before.procs[schedule[n]], id);
      }
    }
  }

  // ---- The other direction: whoever can bring the user back may do so ----

  /** The configuration with more requests that have just arrived. */
  function Joined(c: Conf, more: seq<Request>): Conf {
    Conf(c.items, c.procs + Start(c.items, more).procs)
  }

  lemma NewcomersBringNobody(lib: Lib, c: Conf, more: seq<Request>, id: Uuid)
    requires GoodProcs(lib, c) && NobodyBrings(c, id) && GoodRequests(lib, more) && NoneCreates(more, id)
    ensures GoodProcs(lib, Joined(c, more)) && NobodyBrings(Joined(c, more), id)
  {
    StartIsGood(lib, c.items, more);
    forall p | 0 <= p < |Joined(c, more).procs|
      ensures GoodProc(lib, Joined(c, more).procs[p]) && !MayBring(Joined(c, more).procs[p], id)
    {
      if p >= |c.procs| {
        assert !Creates(more[p - |c.procs|], id);
      }
    }
  }

  /** On an empty table every check passes, so whoever can write the user does. */
  lemma BringsToEmptyTable(lib: Lib, c: Conf, p: nat, id: Uuid) returns (schedule: seq<nat>)
    requires c.items == map[] && p < |c.procs| && GoodProc(lib, c.procs[p]) && MayBring(c.procs[p], id)
    ensures lib.uuidText(id) in Run(lib, c, schedule).items
    decreases CallsLeft(c.procs[p].phase)
  {
    var empty: seq<nat> := [];
    RunOneMore(lib, c, empty, p);
    var proc, next := c.procs[p], Step(lib, c, p);
    if proc.phase.Creating? || proc.phase.Saving? {
      schedule := empty + [p];
    } else {
      if proc.phase.CheckingEmail? {
        assert GoodProc(lib, next.procs[p]) by {
          NewUserIsGood(lib, proc.request.create, proc.request.env);
        }
      }
      var rest := BringsToEmptyTable(lib, next, p, id);
      schedule := (empty + [p]) + rest;
      RunConcat(lib, c, empty + [p], rest);
    }
  }

  lemma Listing(keys: set<string>) returns (list: seq<string>)
    ensures forall key :: key in keys <==> key in list
  {
    list := [];
    var left := keys;
    while left != {}
      invariant left <= keys && forall key :: key in keys <==> key in left || key in list
    {
      var key :| key in left;
      left := left - {key};
      list := list + [key];
    }
  }

  const CALM := Env(true, true, true, 1, 1, 1, 0, Touches(0, 0, 0, 0, 0), "")

  function DeleteAll(lib: Lib, keys: seq<string>): seq<Request> {
    seq(|keys|, i requires 0 <= i < |keys| => Delete(lib.parseUuid(keys[i]).value, CALM))
  }

  /** The next one of them to call. */
  function Nth(c: Conf, k: nat): seq<nat> {
    seq(k, i => |c.procs| + i)
  }

  predicate Awaiting(lib: Lib, key: string, proc: Proc) {
    proc.phase == Deleting(lib.parseUuid(key).value) && proc.request.env == CALM
  }

  /** The requests in flight stand where they stood, and the deletions from the k-th on are still to come. */
  ghost predicate Clearing(lib: Lib, c: Conf, keys: seq<string>, k: nat, c': Conf)
    requires k <= |keys|
  {
    && |c'.procs| == |c.procs| + |keys|
    && c'.procs[..|c.procs|] == c.procs
    && (forall i :: k <= i < |keys| ==> Awaiting(lib, keys[i], c'.procs[|c.procs| + i]))
    && (forall key :: key in c'.items ==> key in c.items && key !in keys[..k])
  }

  lemma ClearingOneMore(lib: Lib, c: Conf, keys: seq<string>, k: nat, c': Conf)
    requires k < |keys| && IsIdText(lib, keys[k]) && Clearing(lib, c, keys, k, c')
    ensures Clearing(lib, c, keys, k + 1, Step(lib, c', |c.procs| + k))
  {
    var n := |c.procs| + k;
    var after := Step(lib, c', n);
    assert Awaiting(lib, keys[k], c'.procs[n]);
    assert after.items == Remove(c'.items, keys[k]);
    assert keys[..k + 1] == keys[..k] + [keys[k]];
    assert after.procs[..|c.procs|] == c'.procs[..|c.procs|];
    assert forall q :: 0 <= q < |c'.procs| && q != n ==> after.procs[q] == c'.procs[q];
  }

  lemma {:induction false} ClearingRun(lib: Lib, c: Conf, keys: seq<string>, k: nat)
    requires k <= |keys| && forall i :: 0 <= i < |keys| ==> IsIdText(lib, keys[i])
    ensures Clearing(lib, c, keys, k, Run(lib, Joined(c, DeleteAll(lib, keys)), Nth(c, k)))
  {
    if k > 0 {
      ClearingRun(lib, c, keys, k - 1);
      assert Nth(c, k) == Nth(c, k - 1) + [|c.procs| + (k - 1)];
      RunOneMore(lib, Joined(c, DeleteAll(lib, keys)), Nth(c, k - 1), |c.procs| + (k - 1));
      ClearingOneMore(lib, c, keys, k - 1, Run(lib, Joined(c, DeleteAll(lib, keys)), Nth(c, k - 1)));
    }
  }

  /** There are deletions that empty the table while the requests in flight wait. */
  lemma Cleared(lib: Lib, c: Conf) returns (more: seq<Request>, schedule: seq<nat>)
    requires WellFormed(lib, c.items)
    ensures forall i :: 0 <= i < |more| ==> more[i].Delete?
    ensures var c' := Run(lib, Joined(c, more), schedule);
      c'.items == map[] && |c'.procs| >= |c.procs| && c'.procs[..|c.procs|] == c.procs
  {
    var keys := Listing(c.items.Keys);
    forall i | 0 <= i < |keys| ensures IsIdText(lib, keys[i]) {
      assert keys[i] in c.items && WellFormedItem(lib, c.items[keys[i]]);
    }
    more, schedule := DeleteAll(lib, keys), Nth(c, |keys|);
    ClearingRun(lib, c, keys, |keys|);
    assert keys[..|keys|] == keys;
    assert forall key :: key !in Run(lib, Joined(c, more), schedule).items;
  }

  /** Whoever can bring the user back does so once everybody else has been deleted. */
  lemma SomeoneBrings(lib: Lib, c: Conf, id: Uuid) returns (more: seq<Request>, schedule: seq<nat>)
    requires WellFormed(lib, c.items) && GoodProcs(lib, c) && !NobodyBrings(c, id)
    ensures GoodRequests(lib, more) && NoneCreates(more, id)
    ensures lib.uuidText(id) in Run(lib, Joined(c, more), schedule).items
  {
    var p: nat :| p < |c.procs| && MayBring(c.procs[p], id);
    var clear;
    more, clear := Cleared(lib, c);
    var cleared := Run(lib, Joined(c, more), clear);
    assert cleared.procs[p] == cleared.procs[..|c.procs|][p] == c.procs[p];
    var rest := BringsToEmptyTable(lib, cleared, p, id);
    schedule := clear + rest;
    RunConcat(lib, Joined(c, more), clear, rest);
  }

  /** The user is not stored, whatever requests come and in whatever order all calls are made. */
  ghost predicate GoneForGood(lib: Lib, c: Conf, id: Uuid) {
    forall more, schedule :: GoodRequests(lib, more) && NoneCreates(more, id) ==>
      lib.uuidText(id) !in Run(lib, Joined(c, more), schedule).items
  }

  /** Exactly when a user who is not stored is gone for good: no request in flight can still write that user. */
  lemma GoneForGoodExactly(lib: Lib, c: Conf, id: Uuid)
    requires Lawful(lib) && WellFormed(lib, c.items) && GoodProcs(lib, c) && lib.uuidText(id) !in c.items
    ensures GoneForGood(lib, c, id) <==> NobodyBrings(c, id)
  {
    if NobodyBrings(c, id) {
      forall more, schedule | GoodRequests(lib, more) && NoneCreates(more, id)
        ensures lib.uuidText(id) !in Run(lib, Joined(c, more), schedule).items
      {
        NewcomersBringNobody(lib, c, more, id);
        NobodyBringsStays(lib, Joined(c, more), schedule, id);
      }
    } else {
      var more, schedule := SomeoneBrings(lib, c, id);
    }
  }

  /** Exactly when a deletion is final: at the moment of its call, no other request holds the user in memory, or is a
      create of the very identifier, with all the answers it needs still to come. */
  lemma DeletionIsFinalExactly(lib: Lib, c: Conf, p: nat, id: Uuid)
    requires Lawful(lib) && WellFormed(lib, c.items) && GoodProcs(lib, c)
    requires p < |c.procs| && c.procs[p].phase == Deleting(id) && c.procs[p].request.env.upWrite
    ensures lib.uuidText(id) !in Step(lib, c, p).items
    ensures GoneForGood(lib, Step(lib, c, p), id) <==> NobodyBrings(c, id)
  {
    var c' := Step(lib, c, p);
    CallKeepsGood(lib, c.items, c.procs[p]);
    assert NobodyBrings(c', id) <==> NobodyBrings(c, id) by {
      assert forall q :: 0 <= q < |c.procs| ==> (MayBring(c'.procs[q], id) <==> MayBring(c.procs[q], id));
    }
    GoneForGoodExactly(lib, c', id);
  }

  /** An update that is about to save a user who is no longer stored needs nobody's help: its own next call brings
      the user back, without a creation time. */
  lemma SaverBringsBack(lib: Lib, c: Conf, p: nat)
    requires p < |c.procs| && c.procs[p].phase.Saving? && c.procs[p].request.env.upWrite
    ensures var key := lib.uuidText(c.procs[p].phase.user.id);
      var after := Step(lib, c, p).items;
      key in after && (key !in c.items ==> after[key].createdAt == "")
  {
  }
}
