/**
 The guarantees of the compatibility check over whole locks: accepted schemas keep every ID along
 any chain, and so do the parameters of the APIs that every schema of the chain declares.
 */
module LockGuarantees {
  import opened Wrappers
  import opened LockModel
  import opened LockHistory
  import opened LockCompat

  // ---------------------------------------------------------------- endpoints after an update

  /** Endpoints registered under this name have the same parameters. */
  ghost predicate AgreeAt(regs: seq<Endpoint>, n: string) {
    forall i, j :: 0 <= i < |regs| && 0 <= j < |regs| && regs[i].name == n && regs[j].name == n ==>
      NamesOf(regs[i].params) == NamesOf(regs[j].params)
  }

  ghost predicate ParamsFor(regs: seq<Endpoint>, n: string, params: set<string>) {
    forall i :: 0 <= i < |regs| && regs[i].name == n ==> NamesOf(regs[i].params) == params
  }

  ghost predicate ApiRetains(a: Api, a': Api) {
    && a'.id == a.id && a'.reserved == a.reserved
    && forall p :: p in a.params ==> p in a'.params && a'.params[p] == a.params[p]
  }

  /** Its parameters are the given ones, and the counter in memory is up to date. */
  ghost predicate Settled(a: Api, params: set<string>) { a.params.Keys == params && a.nextP == HighWater(a) }

  lemma {:induction false} LastEndpoint(regs: seq<Endpoint>)
    requires regs != []
    ensures EndpointNames(regs) == EndpointNames(regs[..|regs| - 1]) + {regs[|regs| - 1].name}
  {
    var front := regs[..|regs| - 1];
    forall n | n in EndpointNames(regs) ensures n in EndpointNames(front) + {regs[|regs| - 1].name} {
      var i :| 0 <= i < |regs| && regs[i].name == n;
      assert i < |front| ==> front[i].name == n;
    }
    forall n | n in EndpointNames(front) ensures n in EndpointNames(regs) {
      var i :| 0 <= i < |front| && front[i].name == n;
      assert regs[i].name == n;
    }
  }

  /** What is known of endpoint `n` once endpoints have been registered, those of its name with `params`. */
  ghost predicate ApiKept(l: Lock, l': Lock, n: string, params: set<string>, registered: bool) {
    && (registered ==> n in l'.apis && Settled(l'.apis[n], params))
    && (n in l.apis ==> n in l'.apis && l'.apis[n].id == l.apis[n].id)
    && (n in l.apis && l.apis[n].params.Keys <= params ==> ApiRetains(l.apis[n], l'.apis[n]))
    && (n in l.apis && !registered ==> l'.apis[n] == l.apis[n])
    && (n !in l.apis && !registered ==> n !in l'.apis)
  }

  lemma {:induction false} EnsureApi(l: Lock, m: Lock, e: Endpoint, n: string, params: set<string>, registered: bool)
    requires ApisInv(m) && ApiKept(l, m, n, params, registered)
    requires e.name == n ==> NamesOf(e.params) == params
    ensures ApiKept(l, Ensure(m, e), n, params, registered || e.name == n)
  {
    hide ApiInv, EnsureParams, HighWater, Partition, NamesOf;
    var api := if e.name in m.apis then m.apis[e.name] else NewApi(m.nextApi + 1);
    NewApiInv(m.nextApi + 1);
    EnsureParamsKeeps(api, e.params);
  }

  lemma {:induction false} EnsureAllApi(l: Lock, regs: seq<Endpoint>, n: string, params: set<string>)
    requires ApisInv(l) && ParamsFor(regs, n, params)
    ensures ApiKept(l, EnsureAll(l, regs), n, params, n in EndpointNames(regs))
    decreases |regs|
  {
    hide ApisInv, EndpointNames, Ensure, ApiKept, NamesOf;
    if regs == [] {
      NoEndpoints();
      KeptSelf(l, n, params);
    } else {
      var front, e := regs[..|regs| - 1], regs[|regs| - 1];
      EnsureAllApi(l, front, n, params);
      EnsureAllKeeps(l, front);
      LastEndpoint(regs);
      EnsureApi(l, EnsureAll(l, front), e, n, params, n in EndpointNames(front));
    }
  }

  lemma {:induction false} KeptSelf(l: Lock, n: string, params: set<string>)
    ensures ApiKept(l, l, n, params, false)
  {
  }

  lemma {:induction false} NoEndpoints()
    ensures EndpointNames([]) == {}
  {
  }

  /** The names the checker takes for active are those the schema registers. */
  lemma {:induction false} ActiveAreRegistered(files: Schema)
    ensures ActiveApiNames(files) == EndpointNames(Registrations(files))
  {
    hide EnsureAll, Registrations;
    var regs := Registrations(files);
    NewLockInv();
    EnsureAllNames(NEW_LOCK, regs);
  }

  lemma {:induction false} EnsureAllNames(l: Lock, regs: seq<Endpoint>)
    ensures EnsureAll(l, regs).apis.Keys == l.apis.Keys + EndpointNames(regs)
    decreases |regs|
  {
    hide EnsureParams;
    if regs != [] {
      EnsureAllNames(l, regs[..|regs| - 1]);
      LastEndpoint(regs);
    }
  }

  // ---------------------------------------------------------------- declared contracts are registered

  ghost predicate Registered(regs: seq<Endpoint>, n: string, params: seq<string>) {
    exists i :: 0 <= i < |regs| && regs[i].name == n && regs[i].params == params
  }

  lemma {:induction false} DeclaredHas(apis: seq<ApiDecl>, prefix: string, i: nat)
    requires i < |apis|
    ensures Registered(Declared(apis, prefix), prefix + apis[i].name, ParamNames(apis[i].params))
  {
    if i == 0 {
      assert Declared(apis, prefix)[0] == Endpoint(prefix + apis[0].name, ParamNames(apis[0].params), false);
    } else {
      DeclaredHas(apis[1..], prefix, i - 1);
      var rest := Declared(apis[1..], prefix);
      var k :| 0 <= k < |rest| && rest[k].name == prefix + apis[i].name && rest[k].params == ParamNames(apis[i].params);
      assert Declared(apis, prefix)[k + 1] == rest[k];
    }
  }

  lemma {:induction false} OneFile(files: Schema)
    requires |files| == 1
    ensures Models(files) == files[0].models && Extensions(files) == files[0].extensions
    ensures Types(files) == files[0].types && Events(files) == files[0].events
    ensures ModelsAndExtensions(files) == files[0].models + files[0].extensions
    ensures Apis(files) == files[0].apis && Services(files) == files[0].services
    ensures Crud(files) == files[0].crud && Federation(files) == files[0].federation && Loads(files) == files[0].loads
  {
    var rest := files[1..];
    assert Models(rest) == [] && Extensions(rest) == [] && Types(rest) == [] && Events(rest) == [];
    assert ModelsAndExtensions(rest) == [] && Apis(rest) == [] && Services(rest) == [];
    assert Crud(rest) == [] && Federation(rest) == [] && Loads(rest) == [];
  }

  /** Where a contract of name `n` comes from. */
  ghost predicate FromApis(apis: seq<ApiDecl>, prefix: string, n: string, c: ApiDecl) {
    exists i :: 0 <= i < |apis| && prefix + apis[i].name == n && apis[i] == c
  }

  lemma {:induction false} AddContractsOrigin(m: map<string, ApiDecl>, apis: seq<ApiDecl>, prefix: string, n: string)
    ensures var m' := AddContracts(m, apis, prefix);
      n in m' ==> (n in m && m'[n] == m[n]) || FromApis(apis, prefix, n, m'[n])
    decreases |apis|
  {
    if apis != [] {
      var front, last := apis[..|apis| - 1], apis[|apis| - 1];
      AddContractsOrigin(m, front, prefix, n);
      var rest := AddContracts(m, front, prefix);
      if n != prefix + last.name && n in rest && FromApis(front, prefix, n, rest[n]) {
        var i :| 0 <= i < |front| && prefix + front[i].name == n && front[i] == rest[n];
        assert apis[i] == rest[n];
      }
    }
  }

  lemma {:induction false} FromApisMono(front: seq<ApiDecl>, more: seq<ApiDecl>, prefix: string, n: string, c: ApiDecl)
    ensures FromApis(front, prefix, n, c) ==> FromApis(front + more, prefix, n, c)
    ensures FromApis(more, prefix, n, c) ==> FromApis(front + more, prefix, n, c)
  {
    if FromApis(front, prefix, n, c) {
      var i :| 0 <= i < |front| && prefix + front[i].name == n && front[i] == c;
      assert (front + more)[i] == c;
    }
    if FromApis(more, prefix, n, c) {
      var i :| 0 <= i < |more| && prefix + more[i].name == n && more[i] == c;
      assert (front + more)[|front| + i] == c;
    }
  }

  lemma {:induction false} LastFile(files: Schema)
    requires files != []
    ensures var front, last := files[..|files| - 1], files[|files| - 1];
      Apis(files) == Apis(front) + last.apis && Services(files) == Services(front) + last.services
  {
    var front, last := files[..|files| - 1], files[|files| - 1];
    assert files == front + [last];
    SplitApis(front, [last]);
    SplitServices(front, [last]);
    OneFile([last]);
  }

  lemma {:induction false} SplitApis(a: Schema, b: Schema)
    ensures Apis(a + b) == Apis(a) + Apis(b)
  {
    if a == [] {
      assert a + b == b;
    } else {
      SplitApis(a[1..], b);
      assert (a + b)[1..] == a[1..] + b && (a + b)[0] == a[0];
      assert a[0].apis + (Apis(a[1..]) + Apis(b)) == (a[0].apis + Apis(a[1..])) + Apis(b);
    }
  }

  lemma {:induction false} SplitServices(a: Schema, b: Schema)
    ensures Services(a + b) == Services(a) + Services(b)
  {
    if a == [] {
      assert a + b == b;
    } else {
      SplitServices(a[1..], b);
      assert (a + b)[1..] == a[1..] + b && (a + b)[0] == a[0];
      assert a[0].services + (Services(a[1..]) + Services(b)) == (a[0].services + Services(a[1..])) + Services(b);
    }
  }

  lemma {:induction false} ContractOrigin(files: Schema, n: string)
    requires n in ApiContracts(files)
    ensures var c := ApiContracts(files)[n];
      FromApis(Apis(files), "", n, c) || FromApis(Services(files), SERVICE, n, c)
    decreases |files|
  {
    var front, last := files[..|files| - 1], files[|files| - 1];
    var svc := SERVICE;
    hide FromApis, AddContracts;
    var m := ApiContracts(front);
    var m' := AddContracts(m, last.apis, "");
    AddContractsOrigin(m, last.apis, "", n);
    AddContractsOrigin(m', last.services, svc, n);
    LastFile(files);
    var c := ApiContracts(files)[n];
    FromApisMono(Apis(front), last.apis, "", n, c);
    FromApisMono(Services(front), last.services, svc, n, c);
    if n in m {
      ContractOrigin(front, n);
    }
  }

  lemma {:induction false} RegisteredMono(a: seq<Endpoint>, b: seq<Endpoint>, c: seq<Endpoint>, n: string, params: seq<string>)
    requires Registered(b, n, params)
    ensures Registered(a + b + c, n, params)
  {
    var i :| 0 <= i < |b| && b[i].name == n && b[i].params == params;
    assert (a + b + c)[|a| + i] == b[i];
  }

  /** A declared API or service is registered under its contract's parameters. */
  lemma {:induction false} ContractIsRegistered(files: Schema, n: string)
    requires n in ApiContracts(files)
    ensures Registered(Registrations(files), n, ParamNames(ApiContracts(files)[n].params))
  {
    ContractOrigin(files, n);
    var c := ApiContracts(files)[n];
    var derived := NotDeferring(Crud(files), ApiNames(Apis(files))) + Federation(files) + Loads(files);
    var apis, services := Declared(Apis(files), ""), Declared(Services(files), SERVICE);
    assert Registrations(files) == derived + apis + services;
    if FromApis(Apis(files), "", n, c) {
      var i :| 0 <= i < |Apis(files)| && "" + Apis(files)[i].name == n && Apis(files)[i] == c;
      DeclaredHas(Apis(files), "", i);
      RegisteredMono(derived, apis, services, n, ParamNames(c.params));
    } else {
      var i :| 0 <= i < |Services(files)| && SERVICE + Services(files)[i].name == n && Services(files)[i] == c;
      DeclaredHas(Services(files), SERVICE, i);
      RegisteredMono(derived + apis, services, [], n, ParamNames(c.params));
      assert derived + apis + services + [] == derived + apis + services;
    }
  }

  lemma {:induction false} ParamTypeNames(params: seq<Param>)
    ensures ParamTypes(params).Keys == NamesOf(ParamNames(params))
    decreases |params|
  {
    if params == [] {
      NoNames();
    } else {
      var front := params[..|params| - 1];
      ParamTypeNames(front);
      LastOf(ParamNames(params));
      assert ParamNames(params)[..|params| - 1] == ParamNames(front);
    }
  }

  // ---------------------------------------------------------------- one accepted schema

  /** Every field ID and API ID of `l` is kept, and no ID of it is newly reserved. */
  ghost predicate KeepsAllIds(l: Lock, l': Lock) {
    && MapRetains(l.models, l'.models) && MapRetains(l.types, l'.types) && MapRetains(l.events, l'.events)
    && (forall n :: n in l.apis ==> n in l'.apis && l'.apis[n].id == l.apis[n].id)
    && l'.reservedApis == l.reservedApis
  }

  /** The entities of an updated lock, kind by kind, and its endpoints. */
  lemma {:induction false} UpdateByParts(l: Lock, files: Schema)
    ensures var u := Update(l, files); var regs := Registrations(files); var l0 := AssignedEntities(l, files);
      && u.models == UpdateEntities(l.models, ModelContract(files), Models(files), Extensions(files))
      && u.types == UpdateEntities(l.types, TypeContract(files), Types(files), [])
      && u.events == UpdateEntities(l.events, EventContract(files), Events(files), [])
      && u.apis == StampApis(DropApis(EnsureAll(l0, regs), EndpointNames(regs)).apis, ApiContracts(files))
      && u.reservedApis == DropApis(EnsureAll(l0, regs), EndpointNames(regs)).reservedApis
      && u.nextApi == EnsureAll(l0, regs).nextApi
      && l0.apis == l.apis && l0.reservedApis == l.reservedApis && l0.nextApi == l.nextApi
  {
    hide AssignAll, ReserveAll, Stamp, EnsureAll, StampApis, Registrations, ModelContract, TypeContract, EventContract, ApiContracts;
    UpdateParts(l, files);
    EntitiesUntouched(AssignedEntities(l, files), Registrations(files));
    NothingToAssign(AssignAll(ReserveAll(l.types, TypeContract(files)), Types(files)));
    NothingToAssign(AssignAll(ReserveAll(l.events, EventContract(files)), Events(files)));
  }

  lemma {:induction false} NoChangesByParts(l: Lock, files: Schema)
    requires BreakingChanges(l, files) == {}
    ensures CompareFields("model", l.models, ModelContract(files), false) == {}
    ensures CompareFields("type", l.types, TypeContract(files), false) == {}
    ensures CompareFields("event", l.events, EventContract(files), true) == {}
    ensures CompareApis(l, files) == {}
  {
    hide CompareFields, CompareApis;
    assert CompareFields("model", l.models, ModelContract(files), false) <= BreakingChanges(l, files);
    assert CompareFields("type", l.types, TypeContract(files), false) <= BreakingChanges(l, files);
    assert CompareFields("event", l.events, EventContract(files), true) <= BreakingChanges(l, files);
    assert CompareApis(l, files) <= BreakingChanges(l, files);
  }

  lemma {:induction false} NoApiChange(l: Lock, files: Schema, n: string)
    requires CompareApis(l, files) == {} && n in l.apis
    ensures CompareApi(n, l.apis[n], ActiveApiNames(files), ApiContracts(files)) == {}
  {
    hide CompareApi, ActiveApiNames, ApiContracts;
    assert CompareApi(n, l.apis[n], ActiveApiNames(files), ApiContracts(files)) <= CompareApis(l, files);
  }

  lemma {:induction false} ActiveApi(l: Lock, files: Schema, n: string)
    requires CompareApis(l, files) == {} && n in l.apis
    ensures n in EndpointNames(Registrations(files))
  {
    NoApiChange(l, files, n);
    ActiveAreRegistered(files);
  }

  /** An accepted schema changes no ID that is in the lock. */
  lemma {:induction false} AcceptedKeepsIds(l: Lock, files: Schema)
    requires LockInv(l) && BreakingChanges(l, files) == {}
    ensures KeepsAllIds(l, Update(l, files))
  {
    hide MapInv, CompareFields, CompareApis, UpdateEntities, EnsureAll, Registrations, EndpointNames, ModelContract,
         TypeContract, EventContract, ApiContracts, BreakingChanges, Update, AssignedEntities, MapRetains;
    var u, regs, l0 := Update(l, files), Registrations(files), AssignedEntities(l, files);
    UpdateByParts(l, files);
    NoChangesByParts(l, files);
    CompatibleEntities("model", l.models, ModelContract(files), false, Models(files), Extensions(files));
    CompatibleEntities("type", l.types, TypeContract(files), false, Types(files), []);
    CompatibleEntities("event", l.events, EventContract(files), true, Events(files), []);
    assert ApisInv(l0);
    forall n | n in l.apis
      ensures n in EndpointNames(regs) && n in EnsureAll(l0, regs).apis && EnsureAll(l0, regs).apis[n].id == l.apis[n].id
    {
      ActiveApi(l, files, n);
      EnsureAllNames(l0, regs);
      EnsureAllId(l0, regs, n);
    }
    EnsureAllNames(l0, regs);
    EntitiesUntouched(l0, regs);
    ReservedUntouched(l0, regs);
    assert forall n :: n in EnsureAll(l0, regs).apis ==> n in EndpointNames(regs);
    assert (set n | n in EnsureAll(l0, regs).apis && n !in EndpointNames(regs) :: EnsureAll(l0, regs).apis[n].id) == {};
  }

  lemma {:induction false} ReservedUntouched(l: Lock, regs: seq<Endpoint>)
    ensures EnsureAll(l, regs).reservedApis == l.reservedApis
    decreases |regs|
  {
    if regs != [] {
      ReservedUntouched(l, regs[..|regs| - 1]);
    }
  }

  lemma {:induction false} EnsureAllId(l: Lock, regs: seq<Endpoint>, n: string)
    requires ApisInv(l) && n in l.apis
    ensures n in EnsureAll(l, regs).apis && EnsureAll(l, regs).apis[n].id == l.apis[n].id
    decreases |regs|
  {
    hide EnsureParams, ApiInv;
    if regs != [] {
      var front, e := regs[..|regs| - 1], regs[|regs| - 1];
      EnsureAllId(l, front, n);
      EnsureAllKeeps(l, front);
      var m := EnsureAll(l, front);
      if e.name == n {
        SameApiId(m.apis[n], e.params);
      }
    }
  }

  // ---------------------------------------------------------------- parameters of declared APIs

  /** The wire types recorded for the API cover exactly its parameters. */
  ghost predicate Contracted(a: Api) { a.contract && a.paramTypes.Keys == a.params.Keys }

  lemma {:induction false} ContractParams(files: Schema, n: string)
    requires AgreeAt(Registrations(files), n) && n in ApiContracts(files)
    ensures n in EndpointNames(Registrations(files))
    ensures ParamsFor(Registrations(files), n, ParamTypes(ApiContracts(files)[n].params).Keys)
  {
    hide Registrations, ApiContracts, ParamTypes, NamesOf;
    ContractIsRegistered(files, n);
    ParamTypeNames(ApiContracts(files)[n].params);
  }

  /** The endpoint of a declared contract after any update. */
  lemma {:induction false} DeclaredApi(l: Lock, files: Schema, n: string)
    requires LockInv(l) && AgreeAt(Registrations(files), n) && n in ApiContracts(files)
    ensures n in Update(l, files).apis && Contracted(Update(l, files).apis[n])
    ensures var params := ParamTypes(ApiContracts(files)[n].params).Keys;
      n in l.apis && l.apis[n].params.Keys <= params ==> ApiRetains(l.apis[n], Update(l, files).apis[n])
  {
    hide MapInv, UpdateEntities, EnsureAll, Registrations, EndpointNames, ApiContracts, AgreeAt, ParamsFor,
         Update, AssignedEntities, ParamTypes, HighWater;
    UpdateByParts(l, files);
    ContractParams(files, n);
    EnsureAllApi(AssignedEntities(l, files), Registrations(files), n, ParamTypes(ApiContracts(files)[n].params).Keys);
  }

  /** An API with a recorded contract that an accepted schema still declares keeps all its parameter IDs. */
  lemma {:induction false} AcceptedKeepsParams(l: Lock, files: Schema, n: string)
    requires LockInv(l) && BreakingChanges(l, files) == {}
    requires AgreeAt(Registrations(files), n) && n in ApiContracts(files)
    requires n in l.apis && Contracted(l.apis[n])
    ensures var u := Update(l, files);
      n in u.apis && ApiRetains(l.apis[n], u.apis[n]) && Contracted(u.apis[n])
  {
    hide LockInv, CompareApis, Registrations, EndpointNames, ApiContracts, AgreeAt, Update, BreakingChanges, ParamTypes;
    NoChangesByParts(l, files);
    NoApiChange(l, files, n);
    ActiveApi(l, files, n);
    ActiveAreRegistered(files);
    var a, c := l.apis[n], ApiContracts(files)[n];
    NoParamRemoved(n, a, c);
    DeclaredApi(l, files, n);
  }

  lemma {:induction false} NoParamRemoved(n: string, a: Api, c: ApiDecl)
    requires CompareContract(n, a, c) == {}
    ensures a.paramTypes.Keys <= ParamTypes(c.params).Keys
  {
    hide ParamTypes;
    var types := ParamTypes(c.params);
    assert forall p :: p in a.paramTypes && p !in types ==>
      Change(ParamPath(n, p), TypeLabel(a.paramTypes[p]), Absent) in CompareParams(n, a, c);
  }

  // ---------------------------------------------------------------- chains of accepted schemas

  /** Every schema of the chain is accepted by the check when its turn comes. */
  ghost predicate Accepted(l: Lock, chain: seq<Step>)
    decreases |chain|
  {
    chain != [] ==>
      var front, last := chain[..|chain| - 1], chain[|chain| - 1];
      && Accepted(l, front)
      && (last.UpdateTo? ==> BreakingChanges(From(l, front), last.files) == {})
  }

  lemma {:induction false} KeepsAllIdsTransitive(a: Lock, b: Lock, c: Lock)
    requires KeepsAllIds(a, b) && KeepsAllIds(b, c)
    ensures KeepsAllIds(a, c)
  {
  }

  lemma {:induction false} ReloadKeepsIds(l: Lock)
    ensures KeepsAllIds(l, Reload(l))
  {
  }

  /** Whatever was in the lock keeps its ID along any chain of accepted schemas, saved or not in between. */
  lemma {:induction false} AcceptedChainKeepsIds(l: Lock, chain: seq<Step>)
    requires LockInv(l) && Accepted(l, chain)
    ensures LockInv(From(l, chain)) && KeepsAllIds(l, From(l, chain))
    decreases |chain|
  {
    hide LockInv, LockEvolves, KeepsAllIds, BreakingChanges, Update, Reload;
    if chain == [] {
      assert KeepsAllIds(l, l) by { KeepsAllIdsSelf(l); }
    } else {
      var front, last := chain[..|chain| - 1], chain[|chain| - 1];
      AcceptedChainKeepsIds(l, front);
      var m := From(l, front);
      StepKeeps(m, last);
      match last {
        case UpdateTo(files) => AcceptedKeepsIds(m, files);
        case SaveAndLoad => ReloadKeepsIds(m);
      }
      KeepsAllIdsTransitive(l, m, From(l, chain));
    }
  }

  lemma {:induction false} KeepsAllIdsSelf(l: Lock)
    ensures KeepsAllIds(l, l)
  {
  }

  /** So do the parameters of an API that every schema of the chain declares. */
  lemma {:induction false} AcceptedChainKeepsParams(l: Lock, chain: seq<Step>, n: string)
    requires LockInv(l) && Accepted(l, chain)
    requires n in l.apis && Contracted(l.apis[n])
    requires forall i :: 0 <= i < |chain| && chain[i].UpdateTo? ==>
      AgreeAt(Registrations(chain[i].files), n) && n in ApiContracts(chain[i].files)
    ensures n in From(l, chain).apis && Contracted(From(l, chain).apis[n]) && ApiRetains(l.apis[n], From(l, chain).apis[n])
    decreases |chain|
  {
    hide LockInv, LockEvolves, KeepsAllIds, BreakingChanges, Update, AgreeAt, Registrations, ApiContracts;
    if chain != [] {
      var front, last := chain[..|chain| - 1], chain[|chain| - 1];
      AcceptedChainKeepsParams(l, front, n);
      AcceptedChainKeepsIds(l, front);
      var m := From(l, front);
      match last {
        case UpdateTo(files) =>
          assert chain[|chain| - 1].UpdateTo?;
          AcceptedKeepsParams(m, files, n);
        case SaveAndLoad =>
      }
    }
  }
}
