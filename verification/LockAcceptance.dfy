/**
 Accepting a schema: exactly when the check of a schema finds nothing right after the update to it, and
 exactly when a second update changes nothing.
 */
module LockAcceptance {
  import opened Wrappers
  import opened LockModel
  import opened LockHistory
  import opened LockCompat
  import opened LockGuarantees

  // ---------------------------------------------------------------- an update accepts itself

  /** Of the types, and of the events, of one name the last declaration has all fields. */
  ghost predicate CompleteDeclarations(files: Schema) {
    LastDeclaresAll(Types(files)) && LastDeclaresAll(Events(files))
  }

  /** Endpoints registered under one name have the same parameters. */
  ghost predicate ConsistentEndpoints(regs: seq<Endpoint>) {
    forall i, j :: 0 <= i < |regs| && 0 <= j < |regs| && regs[i].name == regs[j].name ==>
      NamesOf(regs[i].params) == NamesOf(regs[j].params)
  }

  lemma {:induction false} ContractsDeclare(files: Schema)
    requires CompleteDeclarations(files)
    ensures Declares(ModelContract(files), Models(files), Extensions(files))
    ensures Declares(TypeContract(files), Types(files), [])
    ensures Declares(EventContract(files), Events(files), [])
  {
    hide CompleteDeclarations, NamesFor, GroupNames, Get, Merged, Latest;
    ContractDeclaresAt(files, "");
    forall n: string
      ensures Get(ModelContract(files), n, map[]).Keys == NamesFor(Models(files), n) + NamesFor(Extensions(files), n)
    { ContractDeclaresAt(files, n); }
    forall n: string
      ensures Get(TypeContract(files), n, map[]).Keys == NamesFor(Types(files), n) + NamesFor([], n)
    { ContractDeclaresAt(files, n); }
    forall n: string
      ensures Get(EventContract(files), n, map[]).Keys == NamesFor(Events(files), n) + NamesFor([], n)
    { ContractDeclaresAt(files, n); }
  }

  lemma {:induction false} ContractDeclaresAt(files: Schema, n: string)
    requires CompleteDeclarations(files)
    ensures ModelContract(files).Keys == GroupNames(Models(files)) + GroupNames(Extensions(files))
    ensures TypeContract(files).Keys == GroupNames(Types(files)) + GroupNames([])
    ensures EventContract(files).Keys == GroupNames(Events(files)) + GroupNames([])
    ensures Get(ModelContract(files), n, map[]).Keys == NamesFor(Models(files), n) + NamesFor(Extensions(files), n)
    ensures Get(TypeContract(files), n, map[]).Keys == NamesFor(Types(files), n) + NamesFor([], n)
    ensures Get(EventContract(files), n, map[]).Keys == NamesFor(Events(files), n) + NamesFor([], n)
  {
    hide LastDeclaresAll, Get, Merged, Latest;
    LatestNames(Types(files), n);
    LatestNames(Events(files), n);
    MergedNames(ModelsAndExtensions(files), n);
    MergeOrder(files, n);
  }

  lemma {:induction false} SelfCompatibleEntities(l: Lock, files: Schema)
    requires LockInv(l) && CompleteDeclarations(files)
    ensures var u := Update(l, files);
      && AllSynced(u.models, ModelContract(files)) && AllSynced(u.types, TypeContract(files)) && AllSynced(u.events, EventContract(files))
  {
    hide MapInv, UpdateEntities, Update, Declares, AllSynced, ModelContract, TypeContract, EventContract, Registrations, EnsureAll, ApiContracts, ConsistentEndpoints;
    UpdateByParts(l, files);
    ContractsDeclare(files);
    UpdateSyncs(l.models, ModelContract(files), Models(files), Extensions(files));
    UpdateSyncs(l.types, TypeContract(files), Types(files), []);
    UpdateSyncs(l.events, EventContract(files), Events(files), []);
  }

  /** There are the endpoints of the schema and no others, and their contracts are recorded. */
  ghost predicate ApisSynced(l: Lock, files: Schema) {
    && l.apis.Keys == EndpointNames(Registrations(files))
    && StampApis(l.apis, ApiContracts(files)) == l.apis
  }

  /** Each endpoint finds exactly its parameters under its name. */
  ghost predicate AllSettled(l: Lock, regs: seq<Endpoint>) {
    forall i :: 0 <= i < |regs| ==> regs[i].name in l.apis && Settled(l.apis[regs[i].name], NamesOf(regs[i].params))
  }

  lemma {:induction false} UpdateSyncsApis(l: Lock, files: Schema)
    requires LockInv(l)
    ensures ApisSynced(Update(l, files), files)
  {
    hide LockInv, UpdateEntities, EnsureAll, Registrations, ApiContracts, Update, AssignedEntities, ParamTypes, EndpointNames, StampApis;
    UpdateByParts(l, files);
    var regs, l0 := Registrations(files), AssignedEntities(l, files);
    EnsureAllNames(l0, regs);
    StampTwice(DropApis(EnsureAll(l0, regs), EndpointNames(regs)).apis, ApiContracts(files));
  }

  /** An endpoint of an updated lock is the one the registrations left, but for its recorded contract. */
  lemma {:induction false} UpdatedApi(l: Lock, files: Schema, n: string)
    requires LockInv(l) && n in EndpointNames(Registrations(files))
    ensures n in EnsureAll(AssignedEntities(l, files), Registrations(files)).apis && n in Update(l, files).apis
    ensures SameIdsAs(EnsureAll(AssignedEntities(l, files), Registrations(files)).apis[n], Update(l, files).apis[n])
  {
    hide LockInv, UpdateEntities, EnsureAll, Registrations, ApiContracts, Update, AssignedEntities, ParamTypes, EndpointNames, StampApis;
    UpdateByParts(l, files);
    var regs, l0 := Registrations(files), AssignedEntities(l, files);
    EnsureAllNames(l0, regs);
    StampTwice(DropApis(EnsureAll(l0, regs), EndpointNames(regs)).apis, ApiContracts(files));
  }

  /** The two differ in the recorded contract only. */
  ghost predicate SameIdsAs(a: Api, a': Api) {
    a' == a.(contract := a'.contract, paramTypes := a'.paramTypes, returnType := a'.returnType)
  }

  lemma {:induction false} UpdateSettles(l: Lock, files: Schema)
    requires LockInv(l) && ConsistentEndpoints(Registrations(files))
    ensures AllSettled(Update(l, files), Registrations(files))
  {
    hide MapInv, ApiInv, Partition, EnsureAll, Registrations, Update, AssignedEntities, HighWater, NamesOf, Settled, ConsistentEndpoints, ParamsFor, SameIdsAs;
    var u, regs, l0 := Update(l, files), Registrations(files), AssignedEntities(l, files);
    ApisOnly(l, l0) by { AssignedOnly(l, files); }
    forall i | 0 <= i < |regs|
      ensures regs[i].name in u.apis && Settled(u.apis[regs[i].name], NamesOf(regs[i].params))
    {
      var n := regs[i].name;
      assert n in EndpointNames(regs);
      SameParams(regs, i);
      EnsureAllApi(l0, regs, n, NamesOf(regs[i].params));
      UpdatedApi(l, files, n);
      StampedSettled(EnsureAll(l0, regs).apis[n], u.apis[n], NamesOf(regs[i].params));
    }
  }

  lemma {:induction false} AssignedOnly(l: Lock, files: Schema)
    ensures var l0 := AssignedEntities(l, files); l0 == l.(models := l0.models, types := l0.types, events := l0.events)
  {
    hide AssignAll, ReserveAll;
  }

  lemma {:induction false} SameParams(regs: seq<Endpoint>, i: nat)
    requires ConsistentEndpoints(regs) && i < |regs|
    ensures ParamsFor(regs, regs[i].name, NamesOf(regs[i].params))
  {
    hide NamesOf;
  }

  lemma {:induction false} StampTwice(apis: map<string, Api>, contracts: map<string, ApiDecl>)
    ensures var stamped := StampApis(apis, contracts);
      && stamped.Keys == apis.Keys && StampApis(stamped, contracts) == stamped
      && forall n :: n in apis ==>
        stamped[n] == apis[n].(contract := stamped[n].contract, paramTypes := stamped[n].paramTypes, returnType := stamped[n].returnType)
  {
    hide ParamTypes;
  }

  lemma {:induction false} StampedSettled(a: Api, a': Api, params: set<string>)
    requires Settled(a, params) && SameIdsAs(a, a')
    ensures Settled(a', params)
  {
  }

  lemma {:induction false} SettledIsFixed(a: Api, names: seq<string>)
    requires Settled(a, NamesOf(names))
    ensures EnsureParams(a, names) == a
  {
    hide HighWater;
    NoParamAdded(a, names);
    assert DropParams(a, NamesOf(names)).params == a.params;
    assert (set p | p in a.params && p !in NamesOf(names) :: a.params[p]) == {};
  }

  lemma {:induction false} NoParamAdded(a: Api, names: seq<string>)
    requires NamesOf(names) <= a.params.Keys
    ensures AssignParams(a, names) == a
    decreases |names|
  {
    if names != [] {
      LastOf(names);
      NoParamAdded(a, names[..|names| - 1]);
    }
  }

  lemma {:induction false} EnsureAllFixed(l: Lock, regs: seq<Endpoint>)
    requires AllSettled(l, regs)
    ensures EnsureAll(l, regs) == l
    decreases |regs|
  {
    hide EnsureParams, Settled;
    if regs != [] {
      var front, e := regs[..|regs| - 1], regs[|regs| - 1];
      EnsureAllFixed(l, front);
      SettledIsFixed(l.apis[e.name], e.params);
      assert l.apis[e.name := l.apis[e.name]] == l.apis;
    }
  }

  lemma {:induction false} DropNothing(l: Lock, active: set<string>)
    requires l.apis.Keys <= active
    ensures DropApis(l, active) == l
  {
    assert (map n | n in l.apis && n in active :: l.apis[n]) == l.apis;
    assert (set n | n in l.apis && n !in active :: l.apis[n].id) == {};
  }

  lemma {:induction false} SyncedApiCompatible(n: string, a: Api, contracts: map<string, ApiDecl>, active: set<string>)
    requires n in active
    requires n in contracts ==> a.paramTypes == ParamTypes(contracts[n].params) && a.returnType == contracts[n].returnType
    ensures CompareApi(n, a, active, contracts) == {}
  {
    hide ParamTypes;
  }

  lemma {:induction false} SyncedApisCompatible(l: Lock, files: Schema)
    requires ApisSynced(l, files)
    ensures CompareApis(l, files) == {}
  {
    hide Registrations, ApiContracts, ParamTypes, ActiveApiNames, EndpointNames, CompareApi;
    ActiveAreRegistered(files);
    forall n | n in l.apis
      ensures CompareApi(n, l.apis[n], ActiveApiNames(files), ApiContracts(files)) == {}
    {
      assert StampApis(l.apis, ApiContracts(files))[n] == l.apis[n];
      SyncedApiCompatible(n, l.apis[n], ApiContracts(files), ActiveApiNames(files));
    }
  }

  lemma {:induction false} UpdateIsSelfCompatible(l: Lock, files: Schema)
    requires LockInv(l) && CompleteDeclarations(files)
    ensures BreakingChanges(Update(l, files), files) == {}
  {
    hide LockInv, Update, AllSynced, ApisSynced, CompareFields, CompareApis, ModelContract, TypeContract, EventContract, Registrations, CompleteDeclarations;
    var u := Update(l, files);
    SelfCompatibleEntities(l, files);
    UpdateSyncsApis(l, files);
    SyncedIsCompatible("model", u.models, ModelContract(files), false);
    SyncedIsCompatible("type", u.types, TypeContract(files), false);
    SyncedIsCompatible("event", u.events, EventContract(files), true);
    SyncedApisCompatible(u, files);
  }

  /** Accepting a schema makes it self-compatible: checking it again finds nothing, if and only if no type
      and no event is declared again with fewer fields. */
  lemma {:induction false} UpdateIsSelfCompatibleIff(l: Lock, files: Schema)
    requires LockInv(l)
    ensures BreakingChanges(Update(l, files), files) == {} <==> CompleteDeclarations(files)
  {
    hide MapInv, Update, UpdateEntities, CompareFields, CompareApis, Latest, LastDeclaresAll, Registrations, EnsureAll, StampApis, DropApis, AssignedEntities;
    if CompleteDeclarations(files) {
      UpdateIsSelfCompatible(l, files);
    } else if BreakingChanges(Update(l, files), files) == {} {
      UpdateByParts(l, files);
      CompatibleOnlyIfComplete("type", l.types, Types(files), false);
      CompatibleOnlyIfComplete("event", l.events, Events(files), true);
    }
  }

  // ---------------------------------------------------------------- updating twice

  /** The second update assigns no field, drops no endpoint and records no new contract. */
  lemma {:induction false} SecondUpdate(l: Lock, files: Schema)
    requires LockInv(l) && CompleteDeclarations(files)
    ensures var u := Update(l, files);
      && LockInv(u) && AllSettled(u, Registrations(files)) ==> Update(u, files) == u
  {
    hide MapInv, UpdateEntities, Declares, AllSynced, Update, EnsureAll, StampApis, EndpointNames, DropApis,
         ModelContract, TypeContract, EventContract, Registrations, ApiContracts, Settled;
    var u := Update(l, files);
    UpdateKeeps(l, files);
    if AllSettled(u, Registrations(files)) {
      ContractsDeclare(files);
      SelfCompatibleEntities(l, files);
      UpdateSyncsApis(l, files);
      SyncedIsFixed(u.models, ModelContract(files), Models(files), Extensions(files));
      SyncedIsFixed(u.types, TypeContract(files), Types(files), []);
      SyncedIsFixed(u.events, EventContract(files), Events(files), []);
      UpdateByParts(u, files);
      var l0, regs := AssignedEntities(u, files), Registrations(files);
      EnsureAllFixed(l0, regs);
      DropNothing(l0, EndpointNames(regs));
    }
  }

  /** IDs only grow: reserved ones stay reserved, the counter never falls. */
  ghost predicate Grown(a: Api, a': Api) { a.reserved <= a'.reserved && HighWater(a) <= HighWater(a') }

  /** And one more ID has been given out or reserved. */
  ghost predicate Traced(a: Api, a': Api) { a.reserved < a'.reserved || HighWater(a) < HighWater(a') }

  /** Changing the parameters leaves a trace. */
  lemma {:induction false} ChangeLeavesTrace(a: Api, a': Api)
    requires ApiInv(a) && ApiInv(a') && ApiEvolves(a, a')
    ensures Grown(a, a') && (a.params.Keys != a'.params.Keys ==> Traced(a, a'))
  {
    hide HighWater;
    if p :| p in a'.params && p !in a.params {
      NewIdIsNew(a, a', p);
    } else if a.params.Keys != a'.params.Keys {
      var p :| p in a.params && p !in a'.params;
      DroppedIdIsReserved(a, a', p);
    }
  }

  lemma {:induction false} NewIdIsNew(a: Api, a': Api, p: string)
    requires ApiInv(a) && ApiInv(a') && ApiEvolves(a, a') && p in a'.params && p !in a.params
    ensures HighWater(a) < HighWater(a')
  {
    hide HighWater;
  }

  lemma {:induction false} DroppedIdIsReserved(a: Api, a': Api, p: string)
    requires ApiInv(a) && ApiInv(a') && ApiEvolves(a, a') && p in a.params && p !in a'.params
    ensures a.reserved < a'.reserved
  {
    hide HighWater;
    var id := a.params[p];
    assert forall q :: q in a'.params && a'.params[q] == id ==> q in a.params && a.params[q] == id;
    assert id in a'.reserved && id !in a.reserved;
  }

  lemma {:induction false} InvOf(l: Lock, n: string)
    requires ApisInv(l) && n in l.apis
    ensures ApiInv(l.apis[n])
  {
    hide ApiInv, Partition;
  }

  /** One endpoint more: its entry takes the endpoint's parameters, every other entry stays. */
  lemma {:induction false} EnsureEvolves(l: Lock, e: Endpoint, n: string)
    requires ApisInv(l) && n in l.apis
    ensures var l' := Ensure(l, e);
      && n in l'.apis && ApiInv(l'.apis[n]) && ApiEvolves(l.apis[n], l'.apis[n])
      && (e.name == n ==> l'.apis[n].params.Keys == NamesOf(e.params))
  {
    hide ApiInv, EnsureParams, HighWater, NamesOf, ApiEvolves, Partition;
    if e.name == n {
      EnsureParamsKeeps(l.apis[n], e.params);
    } else {
      ApiEvolvesSelf(l.apis[n]);
    }
  }

  lemma {:induction false} GrownTransitive(a: Api, b: Api, c: Api)
    requires Grown(a, b) && Grown(b, c)
    ensures Grown(a, c) && (Traced(a, b) || Traced(b, c) ==> Traced(a, c))
  {
    hide HighWater;
  }

  /** Registering leaves a trace in the entry of `n` when some endpoint of that name has other
      parameters than the entry had before: the entry changes at that endpoint, or earlier. */
  lemma {:induction false} EnsureAllTraces(l: Lock, regs: seq<Endpoint>, n: string)
    requires ApisInv(l) && n in l.apis
    ensures var l' := EnsureAll(l, regs);
      && ApisInv(l') && n in l'.apis && Grown(l.apis[n], l'.apis[n])
      && (l.apis[n].params.Keys != l'.apis[n].params.Keys ==> Traced(l.apis[n], l'.apis[n]))
      && ((exists k :: 0 <= k < |regs| && regs[k].name == n && NamesOf(regs[k].params) != l.apis[n].params.Keys) ==>
        Traced(l.apis[n], l'.apis[n]))
    decreases |regs|
  {
    hide ApisInv, Ensure, HighWater, NamesOf, Grown, Traced, ApiInv, ApiEvolves;
    if regs == [] {
      GrownSelf(l.apis[n]);
    } else {
      var front, e := regs[..|regs| - 1], regs[|regs| - 1];
      var m := EnsureAll(l, front);
      EnsureAllTraces(l, front, n);
      EnsureKeeps(m, e);
      EnsureEvolves(m, e, n);
      InvOf(m, n);
      ChangeLeavesTrace(m.apis[n], Ensure(m, e).apis[n]);
      GrownTransitive(l.apis[n], m.apis[n], Ensure(m, e).apis[n]);
      if k :| 0 <= k < |regs| && regs[k].name == n && NamesOf(regs[k].params) != l.apis[n].params.Keys {
        assert k < |front| ==> front[k] == regs[k];
      }
    }
  }

  lemma {:induction false} GrownSelf(a: Api)
    ensures Grown(a, a)
  {
  }

  /** Endpoints of one name that disagree: a second update gives out or reserves IDs again. */
  lemma {:induction false} DisagreementChanges(l: Lock, files: Schema)
    requires LockInv(l) && !ConsistentEndpoints(Registrations(files))
    ensures Update(Update(l, files), files) != Update(l, files)
  {
    hide LockInv, Update, Registrations, EnsureAll, AssignedEntities, NamesOf, EndpointNames, SameIdsAs, Traced, Grown;
    var u, regs := Update(l, files), Registrations(files);
    var i, j :| 0 <= i < |regs| && 0 <= j < |regs| && regs[i].name == regs[j].name && NamesOf(regs[i].params) != NamesOf(regs[j].params);
    var n := regs[i].name;
    assert n in EndpointNames(regs) by { NameOfEndpoint(regs, i); }
    UpdateKeeps(l, files);
    UpdatedApi(l, files, n);
    UpdatedApi(u, files, n);
    var l0 := AssignedEntities(u, files);
    AssignedOnly(u, files);
    ApisOnly(u, l0);
    assert NamesOf(regs[i].params) != u.apis[n].params.Keys || NamesOf(regs[j].params) != u.apis[n].params.Keys;
    EnsureAllTraces(l0, regs, n);
    TracedDiffers(u.apis[n], EnsureAll(l0, regs).apis[n], Update(u, files).apis[n]);
  }

  lemma {:induction false} NameOfEndpoint(regs: seq<Endpoint>, i: nat)
    requires i < |regs|
    ensures regs[i].name in EndpointNames(regs)
  {
  }

  lemma {:induction false} TracedDiffers(a: Api, b: Api, c: Api)
    requires Traced(a, b) && SameIdsAs(b, c)
    ensures a != c
  {
  }

  lemma {:induction false} RedeclarationChanges(l: Lock, files: Schema)
    requires LockInv(l) && !CompleteDeclarations(files)
    ensures Update(Update(l, files), files) != Update(l, files)
  {
    hide MapInv, Update, UpdateEntities, Latest, LastDeclaresAll, Registrations, EnsureAll, StampApis, DropApis, AssignedEntities;
    var u := Update(l, files);
    UpdateKeeps(l, files);
    UpdateByParts(l, files);
    UpdateByParts(u, files);
    if !LastDeclaresAll(Types(files)) {
      IncompleteChanges(l.types, Types(files));
    } else {
      IncompleteChanges(l.events, Events(files));
    }
  }

  /** A second update changes nothing at all if and only if endpoints of one name agree, and no type and
      no event is declared again with fewer fields. */
  lemma {:induction false} UpdateIsIdempotentIff(l: Lock, files: Schema)
    requires LockInv(l)
    ensures Update(Update(l, files), files) == Update(l, files) <==>
      ConsistentEndpoints(Registrations(files)) && CompleteDeclarations(files)
  {
    hide LockInv, Update, Registrations, ConsistentEndpoints, CompleteDeclarations, AllSettled;
    if !CompleteDeclarations(files) {
      RedeclarationChanges(l, files);
    } else if ConsistentEndpoints(Registrations(files)) {
      UpdateKeeps(l, files);
      UpdateSettles(l, files);
      SecondUpdate(l, files);
    } else {
      DisagreementChanges(l, files);
    }
  }

  /** The CRUD endpoints of models `User` and `Users` for deletion: one name, `ids` and `id`. */
  function UserAndUsers(): Schema {
    [File([], [], [], [], [Endpoint("deleteUser", ["id"], true), Endpoint("deleteUsers", ["ids"], true),
                           Endpoint("deleteUsers", ["id"], true), Endpoint("deleteUserss", ["ids"], true)], [], [], [], [])]
  }

  /** It happens: an update accepts these two models, and every further one changes the lock. */
  lemma {:induction false} UserAndUsersNeverSettle(l: Lock)
    requires LockInv(l)
    ensures BreakingChanges(Update(l, UserAndUsers()), UserAndUsers()) == {}
    ensures Update(Update(l, UserAndUsers()), UserAndUsers()) != Update(l, UserAndUsers())
  {
    hide LockInv, Update, BreakingChanges;
    var files := UserAndUsers();
    CrudOnly();
    UpdateIsSelfCompatible(l, files);
    DisagreementChanges(l, files);
  }

  lemma {:induction false} CrudOnly()
    ensures CompleteDeclarations(UserAndUsers()) && !ConsistentEndpoints(Registrations(UserAndUsers()))
  {
    hide Models, Extensions, Types, Events, Apis, Services, Crud, Federation, Loads, NamesOf;
    var files := UserAndUsers();
    OneFile(files);
    var crud := files[0].crud;
    NothingDefers(crud);
    assert Registrations(files)[1] == crud[1] && Registrations(files)[2] == crud[2];
    IdsAndId();
  }

  lemma {:induction false} IdsAndId()
    ensures NamesOf(["ids"]) != NamesOf(["id"])
  {
    assert ["ids"][0] in NamesOf(["ids"]);
    assert "ids" !in NamesOf(["id"]);
  }

  lemma {:induction false} NothingDefers(endpoints: seq<Endpoint>)
    ensures NotDeferring(endpoints, {}) == endpoints
    decreases |endpoints|
  {
    if endpoints != [] {
      NothingDefers(endpoints[1..]);
    }
  }

  /** An event declared twice, the second time without the parameter of the first. */
  function SplitEvent(): Schema {
    [File([], [], [], [Group("Paid", [FieldDecl("amount", "Int")]), Group("Paid", [])], [], [], [], [], [])]
  }

  /** It happens: what an update has just recorded of it is reported as removed, and the next one changes it. */
  lemma {:induction false} SplitEventNeverSettles(l: Lock)
    requires LockInv(l)
    ensures BreakingChanges(Update(l, SplitEvent()), SplitEvent()) != {}
    ensures Update(Update(l, SplitEvent()), SplitEvent()) != Update(l, SplitEvent())
  {
    hide LockInv, Update, BreakingChanges, Registrations, CompleteDeclarations;
    var files := SplitEvent();
    assert !CompleteDeclarations(files) by { NotComplete(); }
    UpdateIsSelfCompatibleIff(l, files);
    UpdateIsIdempotentIff(l, files);
  }

  lemma {:induction false} NotComplete()
    ensures !CompleteDeclarations(SplitEvent())
  {
    hide Types, Events;
    var files := SplitEvent();
    OneFile(files);
    var groups := files[0].events;
    assert Get(Latest(groups), "Paid", map[]) == TypesOf(groups[1].fields) == map[];
    assert groups[0].fields[0].name in FieldNames(groups[0].fields);
  }
}
