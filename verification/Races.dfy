/** What interleaving breaks, run by run, and the exact condition, at the moment of a write, under which it does not. */
module Races {
  import opened Prelude
  import opened Library
  import opened UserDomain
  import opened Table
  import opened UserStore
  import opened UseCases
  import opened Serial
  import opened Interleaving
  import Text
  import StrUtil
  import Authz

  lemma RunOneMore(lib: Lib, c: Conf, schedule: seq<nat>, p: nat)
    ensures Run(lib, c, schedule + [p]) == Step(lib, Run(lib, c, schedule), p)
  {
    assert (schedule + [p])[..|schedule|] == schedule;
  }

  predicate AllUp(env: Env) {
    env.up1 && env.up2 && env.upWrite
  }

  /** On an empty table the checks of a create pass. */
  lemma EmptyTablePasses(lib: Lib, input: CreateInput, env: Env)
    requires AllUp(env) && NewUserOf(input, env).Some?
    ensures Call(lib, map[], env, CheckingDocument(input)) == (map[], CheckingEmail(input))
    ensures Call(lib, map[], env, CheckingEmail(input)) == (map[], Creating(NewUserOf(input, env).value))
  {
  }

  /** Two creates, taking turns: both check before either writes. */
  const TURNS: seq<nat> := [0, 1, 0, 1, 0, 1]

  lemma SixSteps(lib: Lib, c: Conf)
    ensures Run(lib, c, TURNS) ==
      Step(lib, Step(lib, Step(lib, Step(lib, Step(lib, Step(lib, c, 0), 1), 0), 1), 0), 1)
  {
    var empty: seq<nat> := [];
    RunOneMore(lib, c, empty, 0);
    RunOneMore(lib, c, empty + [0], 1);
    RunOneMore(lib, c, empty + [0] + [1], 0);
    RunOneMore(lib, c, empty + [0] + [1] + [0], 1);
    RunOneMore(lib, c, empty + [0] + [1] + [0] + [1], 0);
    RunOneMore(lib, c, empty + [0] + [1] + [0] + [1] + [0], 1);
    assert TURNS == empty + [0] + [1] + [0] + [1] + [0] + [1];
  }

  /** Any two creates that would each succeed alone, taking turns on an empty table, are both stored, whether or not
      they share an email or a document. */
  lemma BothCreatesStored(lib: Lib, a: Request, b: Request)
    requires Lawful(lib) && a.Create? && b.Create? && AllUp(a.env) && AllUp(b.env) && a.env.newId != b.env.newId
    requires a.env.newId != NIL_UUID && b.env.newId != NIL_UUID
    requires NewUserOf(a.create, a.env).Some? && NewUserOf(b.create, b.env).Some?
    ensures Run(lib, Start(map[], [a, b]), TURNS).items
         == map[lib.uuidText(a.env.newId) := ToModel(lib, NewUserOf(a.create, a.env).value),
                lib.uuidText(b.env.newId) := ToModel(lib, NewUserOf(b.create, b.env).value)]
  {
    var ua, ub := NewUserOf(a.create, a.env).value, NewUserOf(b.create, b.env).value;
    EmptyTablePasses(lib, a.create, a.env);
    EmptyTablePasses(lib, b.create, b.env);
    if lib.uuidText(a.env.newId) == lib.uuidText(b.env.newId) {
      UuidTextInjective(lib, a.env.newId, b.env.newId);
    }
    SixSteps(lib, Start(map[], [a, b]));
    var c0 := Start(map[], [a, b]);
    var c1 := Step(lib, c0, 0);
    assert c1 == Conf(map[], [Proc(a, CheckingEmail(a.create)), Proc(b, CheckingDocument(b.create))]);
    var c2 := Step(lib, c1, 1);
    assert c2 == Conf(map[], [Proc(a, CheckingEmail(a.create)), Proc(b, CheckingEmail(b.create))]);
    var c3 := Step(lib, c2, 0);
    assert c3 == Conf(map[], [Proc(a, Creating(ua)), Proc(b, CheckingEmail(b.create))]);
    var c4 := Step(lib, c3, 1);
    assert c4 == Conf(map[], [Proc(a, Creating(ua)), Proc(b, Creating(ub))]);
  }

  /** Uniqueness is false of interleaved runs: two creates with the same email, or the same document, both succeed. */
  lemma RaceBreaksUniqueness(lib: Lib, a: Request, b: Request)
    requires Lawful(lib) && a.Create? && b.Create? && AllUp(a.env) && AllUp(b.env) && a.env.newId != b.env.newId
    requires a.env.newId != NIL_UUID && b.env.newId != NIL_UUID
    requires NewUserOf(a.create, a.env).Some? && NewUserOf(b.create, b.env).Some?
    requires a.create.email == b.create.email || a.create.document == b.create.document
    ensures !Unique(Run(lib, Start(map[], [a, b]), TURNS).items)
  {
    BothCreatesStored(lib, a, b);
    var items := Run(lib, Start(map[], [a, b]), TURNS).items;
    var ka, kb := lib.uuidText(a.env.newId), lib.uuidText(b.env.newId);
    if ka == kb {
      UuidTextInjective(lib, a.env.newId, b.env.newId);
    }
    assert ka in items && kb in items;
  }

  function Example(newId: Uuid): Request {
    Create(CreateInput("Ana", Document("1"), PhoneNumber("2"), Email("a@b"), Password("h"), ["USER"]),
           Env(true, true, true, newId, newId, newId, 0, Touches(0, 0, 0, 0, 0), ""))
  }

  lemma ExampleDocument()
    ensures GoodDocument(UnaryLib(), Document("1"))
  {
    StrUtil.DigitsOfFixes("1");
  }

  lemma ExampleRoles()
    ensures Authz.ValidRoles(["USER"])
  {
  }

  lemma ExampleIsGood(newId: Uuid)
    requires newId != NIL_UUID
    ensures GoodRequest(UnaryLib(), Example(newId))
  {
    ExampleDocument();
    ExampleRoles();
  }

  lemma ExampleHasName(newId: Uuid)
    ensures NewUserOf(Example(newId).create, Example(newId).env).Some?
  {
    var name := "Ana";
    CheckedNameRejects(name);
    assert !Text.IsSpace(name[0]);
  }

  /** Such creates exist, and are good requests. */
  lemma RaceExample()
    ensures GoodRequest(UnaryLib(), Example(1)) && GoodRequest(UnaryLib(), Example(2))
    ensures !Unique(Run(UnaryLib(), Start(map[], [Example(1), Example(2)]), TURNS).items)
  {
    LawfulLibraryExists();
    ExampleIsGood(1);
    ExampleIsGood(2);
    ExampleHasName(1);
    ExampleHasName(2);
    RaceBreaksUniqueness(UnaryLib(), Example(1), Example(2));
  }

  /** The entity a request is about to write. */
  function Written(phase: Phase): UserRecord
    requires phase.Creating? || phase.Saving?
  {
    phase.user
  }

  /** No other stored user has the email or the document of `u`. */
  ghost predicate NobodyElseHolds(lib: Lib, items: Items, u: UserRecord) {
    forall id :: id in items && id != lib.uuidText(u.id) ==>
      items[id].email != u.email.text && items[id].document != u.document.value
  }

  /** Exactly when a write keeps the table free of duplicates: no other item holds, at that moment, the email or the
      document that is written. The service checks this some calls earlier, and not again. */
  lemma WriteKeepsUniqueExactly(lib: Lib, c: Conf, p: nat)
    requires Lawful(lib) && Unique(c.items) && p < |c.procs| && c.procs[p].request.env.upWrite
    requires var phase := c.procs[p].phase;
      phase.Saving? || (phase.Creating? && lib.uuidText(phase.user.id) !in c.items)
    ensures Unique(Step(lib, c, p).items) <==> NobodyElseHolds(lib, c.items, Written(c.procs[p].phase))
  {
    var u := Written(c.procs[p].phase);
    var key := lib.uuidText(u.id);
    var m := Step(lib, c, p).items[key];
    assert Step(lib, c, p).items == c.items[key := m];
    InsertKeepsUnique(c.items, key, m);
  }

  /** Exactly when the write of an update keeps every creation time: the user is still stored. */
  lemma SaveKeepsDatedExactly(lib: Lib, c: Conf, p: nat)
    requires Lawful(lib) && AllDated(lib, c.items) && p < |c.procs|
    requires c.procs[p].phase.Saving? && c.procs[p].request.env.upWrite
    ensures AllDated(lib, Step(lib, c, p).items) <==> lib.uuidText(c.procs[p].phase.user.id) in c.items
  {
    var key := lib.uuidText(c.procs[p].phase.user.id);
    var after := Step(lib, c, p).items;
    assert key in after;
    if key !in c.items {
      assert after[key].createdAt == "";
    }
  }

  lemma LoadsAndSaves(lib: Lib, items: Items, input: UpdateInput, env: Env)
    requires Lawful(lib) && WellFormed(lib, items) && GoodUpdate(lib, input)
    requires input.email.None? && UpdateAccepted(lib, items, input, env)
    ensures var u := Updated(Entity(lib, items[lib.uuidText(input.id)]), input, env.touch).value;
      u.id == input.id && Call(lib, items, env, Loading(input)) == (items, Saving(u))
  {
    var key := lib.uuidText(input.id);
    LoadedIsStored(lib, items, input.id, env);
    ChangeFieldsKeeps(lib, Entity(lib, items[key]), input, env.touch);
  }

  /** Two requests, the first of which calls, then the second, then the first again. */
  lemma ThreeSteps(lib: Lib, c: Conf)
    ensures Run(lib, c, [0, 1, 0]) == Step(lib, Step(lib, Step(lib, c, 0), 1), 0)
  {
    var empty: seq<nat> := [];
    RunOneMore(lib, c, empty, 0);
    RunOneMore(lib, c, empty + [0], 1);
    RunOneMore(lib, c, empty + [0] + [1], 0);
    assert [0, 1, 0] == empty + [0] + [1] + [0];
  }

  /** The update of a stored user is loaded, the user is deleted, the update is saved. */
  lemma StaleRun(lib: Lib, items: Items, update: Request, delete: Request, u: UserRecord)
    requires update.Update? && delete.Delete? && delete.env.upWrite && update.env.upWrite
    requires Call(lib, items, update.env, Loading(update.update)) == (items, Saving(u))
    ensures Run(lib, Start(items, [update, delete]), [0, 1, 0]).items
         == Upsert(Remove(items, lib.uuidText(delete.id)), ToModel(lib, u))
  {
    var c0 := Start(items, [update, delete]);
    ThreeSteps(lib, c0);
    var c1 := Step(lib, c0, 0);
    assert c1 == Conf(items, [Proc(update, Saving(u)), Proc(delete, Deleting(delete.id))]);
    var c2 := Step(lib, c1, 1);
    assert c2.procs[0] == Proc(update, Saving(u));
  }

  lemma SerialRunOfTwo(lib: Lib, items: Items, a: Request, b: Request)
    ensures SerialRun(lib, items, [a, b]) == Exec(lib, Exec(lib, items, a).0, b).0
  {
    assert [a, b][..1] == [a] && [a][..0] == [];
    assert SerialRun(lib, items, [a]) == Exec(lib, SerialRun(lib, items, [a][..0]), a).0;
  }

  lemma StaleSerially(lib: Lib, items: Items, update: Request, delete: Request)
    requires Lawful(lib) && WellFormed(lib, items) && update.Update? && GoodRequest(lib, update)
    requires Deletes(delete, update.update.id) && delete.env.upWrite
    ensures var key := lib.uuidText(update.update.id);
      && key !in SerialRun(lib, items, [update, delete])
      && key !in SerialRun(lib, items, [delete, update])
  {
    SerialRunOfTwo(lib, items, update, delete);
    SerialRunOfTwo(lib, items, delete, update);
    UpdateEffect(lib, Remove(items, lib.uuidText(update.update.id)), update.update, update.env);
  }

  /** A deletion is not final: when a user is deleted between the read and the write of an update, the write brings
      the user back under the same identifier and document, but without a creation time; either serial order of the
      two requests leaves no such user. */
  lemma StaleUpdateResurrects(lib: Lib, items: Items, update: Request, delete: Request)
    requires Lawful(lib) && WellFormed(lib, items) && update.Update? && GoodRequest(lib, update)
    requires update.update.email.None? && UpdateAccepted(lib, items, update.update, update.env)
    requires Deletes(delete, update.update.id) && delete.env.upWrite
    ensures var key := lib.uuidText(update.update.id);
      var after := Run(lib, Start(items, [update, delete]), [0, 1, 0]).items;
      && key in after && after[key].document == items[key].document && after[key].createdAt == ""
      && !AllDated(lib, after)
      && key !in SerialRun(lib, items, [update, delete])
      && key !in SerialRun(lib, items, [delete, update])
  {
    var key := lib.uuidText(update.update.id);
    LoadsAndSaves(lib, items, update.update, update.env);
    StaleRun(lib, items, update, delete, Updated(Entity(lib, items[key]), update.update, update.env.touch).value);
    StaleSerially(lib, items, update, delete);
    UpdatedItemIsGood(lib, items[key], update.update, update.env.touch);
    var after := Run(lib, Start(items, [update, delete]), [0, 1, 0]).items;
    assert after[key].createdAt == "";
  }

  /** What the late write leaves is what the update asked for, of the user as it was loaded. */
  lemma StaleUpdateSaves(lib: Lib, items: Items, update: Request, delete: Request)
    requires Lawful(lib) && WellFormed(lib, items) && update.Update? && GoodRequest(lib, update)
    requires update.update.email.None? && UpdateAccepted(lib, items, update.update, update.env)
    requires Deletes(delete, update.update.id) && delete.env.upWrite
    ensures var key := lib.uuidText(update.update.id);
      Run(lib, Start(items, [update, delete]), [0, 1, 0]).items
        == items[key := UpdatedItem(lib, items[key], update.update, update.env.touch).(createdAt := "")]
  {
    var key := lib.uuidText(update.update.id);
    var u := Updated(Entity(lib, items[key]), update.update, update.env.touch).value;
    LoadsAndSaves(lib, items, update.update, update.env);
    StaleRun(lib, items, update, delete, u);
    var m := ToModel(lib, u).(createdAt := "");
    assert Remove(items, key)[key := m] == items[key := m];
  }

  function ExampleUpdate(id: Uuid): Request {
    Update(UpdateInput(id, None, Some(PhoneNumber("3")), None, None, None), Example(id).env)
  }

  function ExampleDelete(id: Uuid): Request {
    Delete(id, Example(id).env)
  }

  lemma ExampleStored()
    ensures var items := SerialRun(UnaryLib(), map[], [Example(1)]);
      UnaryLib().uuidText(1) in items && StoreInvariant(UnaryLib(), items)
  {
    var lib := UnaryLib();
    var one := [Example(1)];
    LawfulLibraryExists();
    ExampleIsGood(1);
    ExampleHasName(1);
    SerialRunKeepsInvariant(lib, map[], one);
    assert one[..0] == [];
    assert SerialRun(lib, map[], one) == Exec(lib, SerialRun(lib, map[], one[..0]), one[0]).0;
    CreateEffect(lib, map[], Example(1).create, Example(1).env);
  }

  lemma ExampleAccepted(items: Items)
    requires UnaryLib().uuidText(1) in items
    ensures UpdateAccepted(UnaryLib(), items, ExampleUpdate(1).update, ExampleUpdate(1).env)
    ensures GoodRequest(UnaryLib(), ExampleUpdate(1)) && GoodRequest(UnaryLib(), ExampleDelete(1))
  {
  }

  /** Such an update and such a deletion exist: a user is created, and loaded by an update of the phone number,
      deleted and saved. */
  lemma StaleExample()
    ensures var lib := UnaryLib();
      var items := SerialRun(lib, map[], [Example(1)]);
      var key := lib.uuidText(1);
      var after := Run(lib, Start(items, [ExampleUpdate(1), ExampleDelete(1)]), [0, 1, 0]).items;
      && StoreInvariant(lib, items) && key in items
      && GoodRequest(lib, Example(1)) && GoodRequest(lib, ExampleUpdate(1)) && GoodRequest(lib, ExampleDelete(1))
      && key in after && after[key].phoneNumber == "3" && after[key].createdAt == ""
  {
    LawfulLibraryExists();
    ExampleIsGood(1);
    ExampleStored();
    var items := SerialRun(UnaryLib(), map[], [Example(1)]);
    ExampleAccepted(items);
    StaleUpdateSaves(UnaryLib(), items, ExampleUpdate(1), ExampleDelete(1));
  }
}
