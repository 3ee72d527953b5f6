/**
 What saving and loading makes the check forget: the guard against additions of events that were
 locked without parameters.
 */
module LockReload {
  import opened Wrappers
  import opened LockModel
  import opened LockHistory
  import opened LockCompat
  import opened LockGuarantees
  import opened LockAcceptance

  // ---------------------------------------------------------------- what a reload makes the check forget

  lemma {:induction false} ReloadedEntity(kind: string, n: string, e: Entity, c: map<string, string>, reject: bool)
    ensures var e' := if e.types == Some(map[]) then e.(types := None) else e;
      CompareEntity(kind, n, e', c, reject) ==
        if reject && e.types == Some(map[]) then RemovedFields(kind, n, e, c) + RetypedFields(kind, n, e, c)
        else CompareEntity(kind, n, e, c, reject)
  {
    var e' := if e.types == Some(map[]) then e.(types := None) else e;
    assert forall f :: PreviousType(e', f) == PreviousType(e, f);
    assert RemovedFields(kind, n, e', c) == RemovedFields(kind, n, e, c);
    assert RetypedFields(kind, n, e', c) == RetypedFields(kind, n, e, c);
  }

  lemma {:induction false} ReloadedFields(kind: string, locks: map<string, Entity>, contract: map<string, map<string, string>>, reject: bool)
    requires reject ==> forall n :: n in locks ==> locks[n].types != Some(map[])
    ensures CompareFields(kind, ForgetEmptyTypes(locks), contract, reject) == CompareFields(kind, locks, contract, reject)
  {
    hide CompareEntity;
    forall n | n in locks
      ensures CompareEntity(kind, n, ForgetEmptyTypes(locks)[n], Get(contract, n, map[]), reject) ==
              CompareEntity(kind, n, locks[n], Get(contract, n, map[]), reject)
    {
      ReloadedEntity(kind, n, locks[n], Get(contract, n, map[]), reject);
    }
  }

  lemma {:induction false} ReloadedApis(l: Lock, files: Schema)
    ensures CompareApis(Reload(l), files) == CompareApis(l, files)
  {
    hide ActiveApiNames, ApiContracts, CompareParams;
    var l' := Reload(l);
    forall n | n in l.apis
      ensures CompareApi(n, l'.apis[n], ActiveApiNames(files), ApiContracts(files)) ==
              CompareApi(n, l.apis[n], ActiveApiNames(files), ApiContracts(files))
    {
      if n in ApiContracts(files) {
        SameParamsCompared(n, l.apis[n], l'.apis[n], ApiContracts(files)[n]);
      }
    }
  }

  lemma {:induction false} SameParamsCompared(n: string, a: Api, a': Api, c: ApiDecl)
    requires a' == a.(nextP := 0)
    ensures CompareParams(n, a', c) == CompareParams(n, a, c)
  {
  }

  /** The schema whose only declaration is an event with one parameter. */
  function EventSchema(event: string, param: string): Schema {
    [File([], [], [], [Group(event, [FieldDecl(param, "Int")])], [], [], [], [], [])]
  }

  lemma {:induction false} EventSchemaContract(event: string, param: string)
    ensures EventContract(EventSchema(event, param)) == map[event := map[param := "Int"]]
  {
    var fields := [FieldDecl(param, "Int")];
    OneFile(EventSchema(event, param));
    assert TypesOf(fields) == map[param := "Int"] by {
      assert TypesOf(fields[..0]) == map[];
    }
    assert Latest([Group(event, fields)][..0]) == map[];
  }

  /** A name that is not in the set: longer than all of its names. */
  lemma {:induction false} FreshName(names: set<string>) returns (x: string)
    ensures x !in names && forall n :: n in names ==> |n| < |x|
    decreases |names|
  {
    if names == {} {
      x := "x";
    } else {
      var n :| n in names;
      x := FreshName(names - {n});
      if |x| <= |n| {
        x := n + "x";
      }
      forall m | m in names ensures |m| < |x| {
        assert m == n || m in names - {n};
      }
    }
  }

  lemma {:induction false} AdditionSeen(l: Lock, n: string, x: string)
    requires n in l.events && l.events[n].types == Some(map[]) && x !in l.events[n].fields
    ensures Change(FieldPath("event", n, x), Absent, TypeLabel("Int")) in BreakingChanges(l, EventSchema(n, x))
    ensures Change(FieldPath("event", n, x), Absent, TypeLabel("Int")) !in BreakingChanges(Reload(l), EventSchema(n, x))
  {
    hide ActiveApiNames, ApiContracts, Reload, CompareApis, ModelContract, TypeContract, EventContract, EventSchema;
    var files, change := EventSchema(n, x), Change(FieldPath("event", n, x), Absent, TypeLabel("Int"));
    EventSchemaContract(n, x);
    var contract, c := EventContract(files), map[x := "Int"];
    assert Get(contract, n, map[]) == c;
    assert c[x] == "Int" && x !in l.events[n].fields;
    assert change in AddedFields("event", n, l.events[n], c);
    assert change in CompareEntity("event", n, l.events[n], c, true);
    assert change in CompareFields("event", l.events, contract, true);
    var l' := Reload(l);
    ReloadedEvent(l, n);
    assert change !in CompareEntity("event", n, l'.events[n], c, true);
    OtherPaths("event", l'.events, contract, true, change);
    OtherPaths("model", l'.models, ModelContract(files), false, change);
    OtherPaths("type", l'.types, TypeContract(files), false, change);
    NoFieldPaths(l', files, change);
  }

  /** A comparison reports a field only from its own kind and entity. */
  lemma {:induction false} OtherPaths(kind: string, locks: map<string, Entity>, contract: map<string, map<string, string>>, reject: bool, change: Change)
    requires change.path.FieldPath?
    ensures change in CompareFields(kind, locks, contract, reject) ==>
      && change.path.kind == kind && change.path.entity in locks
      && change in CompareEntity(kind, change.path.entity, locks[change.path.entity], Get(contract, change.path.entity, map[]), reject)
  {
    hide Get, PreviousType;
    forall n | n in locks && change in CompareEntity(kind, n, locks[n], Get(contract, n, map[]), reject)
      ensures change.path.kind == kind && change.path.entity == n
    {
    }
    hide CompareEntity;
  }

  lemma {:induction false} ReloadedEvent(l: Lock, n: string)
    requires n in l.events && l.events[n].types == Some(map[])
    ensures n in Reload(l).events && Reload(l).events[n] == l.events[n].(types := None)
  {
  }

  lemma {:induction false} NoFieldPaths(l: Lock, files: Schema, change: Change)
    requires change.path.FieldPath?
    ensures change !in CompareApis(l, files)
  {
    hide ActiveApiNames, ApiContracts;
  }

  /** For every lock: what the check says about every schema survives a reload exactly when no locked event
      has an empty map of types, which guards it against additions in memory only. */
  lemma {:induction false} ReloadKeepsVerdictIff(l: Lock)
    ensures (forall files :: BreakingChanges(Reload(l), files) == BreakingChanges(l, files)) <==>
      (forall n :: n in l.events ==> l.events[n].types != Some(map[]))
  {
    hide CompareFields, CompareApis, ModelContract, TypeContract, EventContract;
    if n :| n in l.events && l.events[n].types == Some(map[]) {
      var x := FreshName(l.events[n].fields.Keys);
      AdditionSeen(l, n, x);
    } else {
      forall files ensures BreakingChanges(Reload(l), files) == BreakingChanges(l, files) {
        ReloadedFields("model", l.models, ModelContract(files), false);
        ReloadedFields("type", l.types, TypeContract(files), false);
        ReloadedFields("event", l.events, EventContract(files), true);
        ReloadedApis(l, files);
      }
    }
  }

  /** It happens: lock an event without parameters, save, load, and a parameter is added to its
      payload with nothing to report, although the check before saving reports it. */
  lemma {:induction false} PayloadGrowsUnnoticed()
    ensures exists files, files' ::
      && UniqueGroups(Types(files)) && UniqueGroups(Events(files)) && UniqueGroups(Types(files')) && UniqueGroups(Events(files'))
      && BreakingChanges(Update(NEW_LOCK, files), files') != {}
      && BreakingChanges(Reload(Update(NEW_LOCK, files)), files') == {}
  {
    hide Update, Reload, BreakingChanges, Types, Events;
    var files, files' := SilentEventSchema("Ping"), EventSchema("Ping", "x");
    OneFile(files);
    OneFile(files');
    hide EventSchema, UniqueGroups;
    var u := Update(NEW_LOCK, files);
    SilentEventLocked("Ping");
    AdditionSeen(u, "Ping", "x");
    assert BreakingChanges(u, files') != {};
    SilentEventReloaded(u, "Ping");
  }

  /** The schema whose only declaration is an event without parameters. */
  function SilentEventSchema(event: string): Schema {
    [File([], [], [], [Group(event, [])], [], [], [], [], [])]
  }

  lemma {:induction false} SilentEventContracts(event: string)
    ensures var files := SilentEventSchema(event);
      && CompleteDeclarations(files) && Registrations(files) == []
      && EventContract(files) == map[event := map[]] && GroupNames(Events(files)) == {event}
      && GroupNames(Models(files)) == {} && GroupNames(Extensions(files)) == {} && GroupNames(Types(files)) == {}
  {
    hide Models, Extensions, Types, Events, Apis, Services, Crud, Federation, Loads;
    var files := SilentEventSchema(event);
    OneFile(files);
    assert Latest(Events(files)[..0]) == map[] && GroupNames(Events(files)[..0]) == {};
    assert Registrations(files) == [];
  }

  /** Updating an empty lock with it locks the event, with empty field types, and nothing else. */
  lemma {:induction false} SilentEventLocked(event: string)
    ensures var files := SilentEventSchema(event); var u := Update(NEW_LOCK, files);
      && CompleteDeclarations(files) && OnlySilentEvent(u, event)
  {
    hide Update, SilentEventSchema, EventContract, ModelContract, TypeContract, UpdateEntities, EnsureAll, StampApis,
         DropApis, Registrations, GroupNames, AssignedEntities;
    var files := SilentEventSchema(event);
    var u := Update(NEW_LOCK, files);
    SilentEventContracts(event);
    NewLockInv();
    UpdateByParts(NEW_LOCK, files);
    UpdateEntity(map[], ModelContract(files), Models(files), Extensions(files), event);
    UpdateEntity(map[], TypeContract(files), Types(files), [], event);
    UpdateEntity(map[], EventContract(files), Events(files), [], event);
    NoGroups();
    SelfCompatibleEntities(NEW_LOCK, files);
    assert Synced(u.events[event], map[]);
    UpdateSyncsApis(NEW_LOCK, files);
    NoEndpoints();
  }

  lemma {:induction false} NoGroups()
    ensures GroupNames([]) == {}
  {
  }

  ghost predicate OnlySilentEvent(l: Lock, event: string) {
    && l.models.Keys == {} && l.types.Keys == {} && l.apis.Keys == {} && l.events.Keys == {event}
    && l.events[event].types == Some(map[]) && l.events[event].fields == map[]
  }

  lemma {:induction false} SilentEventReloaded(l: Lock, event: string)
    requires OnlySilentEvent(l, event)
    ensures BreakingChanges(Reload(l), EventSchema(event, "x")) == {}
  {
    hide Reload, EventContract, ModelContract, TypeContract, ApiContracts, ActiveApiNames, EventSchema;
    var l', files := Reload(l), EventSchema(event, "x");
    ReloadedEvent(l, event);
    assert l'.models.Keys == {} && l'.types.Keys == {} && l'.apis.Keys == {} && l'.events.Keys == {event} by { ReloadedKeys(l); }
    assert CompareEntity("event", event, l'.events[event], Get(EventContract(files), event, map[]), true) == {};
    assert CompareFields("event", l'.events, EventContract(files), true) == {};
    assert CompareFields("model", l'.models, ModelContract(files), false) == {};
    assert CompareFields("type", l'.types, TypeContract(files), false) == {};
    assert CompareApis(l', files) == {};
  }

  lemma {:induction false} ReloadedKeys(l: Lock)
    ensures Reload(l).models.Keys == l.models.Keys && Reload(l).types.Keys == l.types.Keys
    ensures Reload(l).events.Keys == l.events.Keys && Reload(l).apis.Keys == l.apis.Keys
  {
  }
}
