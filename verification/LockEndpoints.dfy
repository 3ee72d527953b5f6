/**
 Which endpoints a schema has: those derived from it, unless an API of that name is declared and they
 defer to it, and the declared ones. What this means for an API that overrides a derived one.
 */
module LockEndpoints {
  import opened Wrappers
  import opened LockModel
  import opened LockHistory
  import opened LockCompat
  import opened LockGuarantees
  import opened LockAcceptance

  // ---------------------------------------------------------------- the schema's own lists

  /** One part of every file, file by file. */
  function Collected<T>(files: Schema, part: File -> seq<T>): seq<T> {
    if files == [] then [] else part(files[0]) + Collected(files[1..], part)
  }

  /** Declared APIs or services as the endpoints they are. */
  function AsEndpoints(apis: seq<ApiDecl>, prefix: string): seq<Endpoint> {
    seq(|apis|, k requires 0 <= k < |apis| => Endpoint(prefix + apis[k].name, ParamNames(apis[k].params), false))
  }

  /** Some file declares an API of this name. */
  predicate DeclaresApi(files: Schema, n: string) {
    exists i, k :: 0 <= i < |files| && 0 <= k < |files[i].apis| && files[i].apis[k].name == n
  }

  /** A derived endpoint that gives way to a declared API. */
  predicate Overridden(files: Schema, e: Endpoint) { e.defers && DeclaresApi(files, e.name) }

  /** A derived endpoint of this name that no declared API overrides. */
  predicate Derives(files: Schema, n: string) {
    exists i, k :: 0 <= i < |files| && 0 <= k < |files[i].crud| && files[i].crud[k].name == n && !Overridden(files, files[i].crud[k])
  }

  predicate Federates(files: Schema, n: string) {
    exists i, k :: 0 <= i < |files| && 0 <= k < |files[i].federation| && files[i].federation[k].name == n
  }

  predicate LoadsBy(files: Schema, n: string) {
    exists i, k :: 0 <= i < |files| && 0 <= k < |files[i].loads| && files[i].loads[k].name == n
  }

  predicate Serves(files: Schema, n: string) {
    exists i, k :: 0 <= i < |files| && 0 <= k < |files[i].services| && "svc:" + files[i].services[k].name == n
  }

  /** The schema has an endpoint of this name. */
  predicate Offers(files: Schema, n: string) {
    Derives(files, n) || Federates(files, n) || LoadsBy(files, n) || DeclaresApi(files, n) || Serves(files, n)
  }

  lemma {:induction false} CollectedHas<T>(files: Schema, part: File -> seq<T>, x: T)
    ensures x in Collected(files, part) <==> exists i :: 0 <= i < |files| && x in part(files[i])
  {
    if files != [] {
      CollectedHas(files[1..], part, x);
      if i :| 0 <= i < |files| && x in part(files[i]) {
        assert i > 0 ==> files[1..][i - 1] == files[i];
      }
      if i :| 0 <= i < |files[1..]| && x in part(files[1..][i]) {
        assert files[i + 1] == files[1..][i];
      }
    }
  }

  lemma {:induction false} DeclaredAsEndpoints(apis: seq<ApiDecl>, prefix: string)
    ensures Declared(apis, prefix) == AsEndpoints(apis, prefix)
  {
    if apis != [] {
      DeclaredAsEndpoints(apis[1..], prefix);
      assert AsEndpoints(apis, prefix)[1..] == AsEndpoints(apis[1..], prefix);
    }
  }

  lemma {:induction false} AsEndpointsConcat(a: seq<ApiDecl>, b: seq<ApiDecl>, prefix: string)
    ensures AsEndpoints(a + b, prefix) == AsEndpoints(a, prefix) + AsEndpoints(b, prefix)
  {
  }

  lemma {:induction false} ListsCollected(files: Schema)
    ensures Crud(files) == Collected(files, (f: File) => f.crud)
    ensures Federation(files) == Collected(files, (f: File) => f.federation)
    ensures Loads(files) == Collected(files, (f: File) => f.loads)
    ensures AsEndpoints(Apis(files), "") == Collected(files, (f: File) => AsEndpoints(f.apis, ""))
    ensures AsEndpoints(Services(files), "svc:") == Collected(files, (f: File) => AsEndpoints(f.services, "svc:"))
  {
    if files != [] {
      ListsCollected(files[1..]);
      AsEndpointsConcat(files[0].apis, Apis(files[1..]), "");
      AsEndpointsConcat(files[0].services, Services(files[1..]), "svc:");
    }
  }

  // ---------------------------------------------------------------- what an update registers

  /** The positions in `crud`, in order, of the endpoints that no declared API overrides. */
  ghost predicate Remaining(at: seq<nat>, crud: seq<Endpoint>, files: Schema) {
    && (forall k :: 0 <= k < |at| ==> at[k] < |crud|)
    && (forall j, k :: 0 <= j < k < |at| ==> at[j] < at[k])
    && (forall i :: 0 <= i < |crud| ==> (i in at <==> !Overridden(files, crud[i])))
  }

  function At(crud: seq<Endpoint>, at: seq<nat>): (r: seq<Endpoint>)
    requires forall k :: 0 <= k < |at| ==> at[k] < |crud|
    ensures |r| == |at| && forall k :: 0 <= k < |at| ==> r[k] == crud[at[k]]
  {
    seq(|at|, k requires 0 <= k < |at| => crud[at[k]])
  }

  lemma {:induction false} NotDeferringLast(front: seq<Endpoint>, e: Endpoint, declared: set<string>)
    ensures NotDeferring(front + [e], declared) == NotDeferring(front, declared) + if e.defers && e.name in declared then [] else [e]
  {
    if front != [] {
      NotDeferringLast(front[1..], e, declared);
      assert (front + [e])[1..] == front[1..] + [e];
    } else {
      assert NotDeferring([e][1..], declared) == [];
    }
  }

  lemma {:induction false} NotDeferringAt(crud: seq<Endpoint>, files: Schema, declared: set<string>) returns (at: seq<nat>)
    requires forall n :: n in declared <==> DeclaresApi(files, n)
    ensures Remaining(at, crud, files) && At(crud, at) == NotDeferring(crud, declared)
    decreases |crud|
  {
    hide DeclaresApi, NotDeferring;
    if crud == [] {
      at := [];
      assert NotDeferring([], declared) == [] by { NothingDefersIn(declared); }
    } else {
      var front, e := crud[..|crud| - 1], crud[|crud| - 1];
      var before := NotDeferringAt(front, files, declared);
      assert crud == front + [e];
      NotDeferringLast(front, e, declared);
      at := if Overridden(files, e) then before else before + [|crud| - 1];
      RemainingLast(before, front, e, files);
    }
  }

  lemma {:induction false} NothingDefersIn(declared: set<string>)
    ensures NotDeferring([], declared) == []
  {
  }

  lemma {:induction false} RemainingLast(at: seq<nat>, front: seq<Endpoint>, e: Endpoint, files: Schema)
    requires Remaining(at, front, files)
    ensures var at' := if Overridden(files, e) then at else at + [|front|];
      && Remaining(at', front + [e], files)
      && At(front + [e], at') == At(front, at) + if Overridden(files, e) then [] else [e]
  {
    hide Overridden;
    var at', crud := if Overridden(files, e) then at else at + [|front|], front + [e];
    forall i | 0 <= i < |crud| ensures i in at' <==> !Overridden(files, crud[i]) {
      if i in at {
        var k :| 0 <= k < |at| && at[k] == i;
        assert i < |front|;
      }
      assert i < |front| ==> (i in at <==> !Overridden(files, front[i]));
    }
  }

  lemma {:induction false} NamesDeclared(files: Schema)
    ensures forall n :: n in ApiNames(Apis(files)) <==> DeclaresApi(files, n)
  {
    forall n ensures n in ApiNames(Apis(files)) <==> DeclaresApi(files, n) {
      NameDeclared(files, n);
    }
  }

  lemma {:induction false} NameDeclared(files: Schema, n: string)
    ensures n in ApiNames(Apis(files)) <==> DeclaresApi(files, n)
  {
    if files != [] {
      var rest := Apis(files[1..]);
      NameDeclared(files[1..], n);
      if k :| 0 <= k < |Apis(files)| && Apis(files)[k].name == n {
        assert k >= |files[0].apis| ==> rest[k - |files[0].apis|].name == n;
      }
      if k :| 0 <= k < |rest| && rest[k].name == n {
        assert Apis(files)[|files[0].apis| + k].name == n;
      }
      if i, k :| 0 <= i < |files| && 0 <= k < |files[i].apis| && files[i].apis[k].name == n {
        if i == 0 {
          assert Apis(files)[k].name == n;
        } else {
          assert files[1..][i - 1].apis[k].name == n;
        }
      }
      if i, k :| 0 <= i < |files[1..]| && 0 <= k < |files[1..][i].apis| && files[1..][i].apis[k].name == n {
        assert files[i + 1].apis[k].name == n;
      }
    }
  }

  /** The endpoints of the schema in the order in which they are registered. */
  function EndpointsOf(files: Schema, at: seq<nat>): seq<Endpoint>
    requires forall k :: 0 <= k < |at| ==> at[k] < |Collected(files, (f: File) => f.crud)|
  {
    At(Collected(files, (f: File) => f.crud), at) + Collected(files, (f: File) => f.federation) + Collected(files, (f: File) => f.loads) +
    Collected(files, (f: File) => AsEndpoints(f.apis, "")) + Collected(files, (f: File) => AsEndpoints(f.services, "svc:"))
  }

  lemma {:induction false} RegistrationsAt(files: Schema) returns (at: seq<nat>)
    ensures Remaining(at, Collected(files, (f: File) => f.crud), files) && EndpointsOf(files, at) == Registrations(files)
  {
    hide DeclaresApi, Overridden, Remaining, NotDeferring;
    ListsCollected(files);
    NamesDeclared(files);
    at := NotDeferringAt(Crud(files), files, ApiNames(Apis(files)));
    assert Remaining(at, Crud(files), files);
    DeclaredAsEndpoints(Apis(files), "");
    DeclaredAsEndpoints(Services(files), "svc:");
    assert forall k :: 0 <= k < |at| ==> at[k] < |Crud(files)| by { AtWithin(at, Crud(files), files); }
  }

  lemma {:induction false} AtWithin(at: seq<nat>, crud: seq<Endpoint>, files: Schema)
    requires Remaining(at, crud, files)
    ensures forall k :: 0 <= k < |at| ==> at[k] < |crud|
  {
  }

  /** An update registers the endpoints of the schema, each once for every time it is listed, in order: derived
      ones that are not overridden, federation, named loads, declared APIs, services. The others are dropped. */
  lemma {:induction false} UpdateRegisters(l: Lock, files: Schema) returns (at: seq<nat>)
    ensures Remaining(at, Collected(files, (f: File) => f.crud), files)
    ensures var regs := EndpointsOf(files, at);
      Update(l, files).apis == StampApis(DropApis(EnsureAll(AssignedEntities(l, files), regs), EndpointNames(regs)).apis, ApiContracts(files))
  {
    hide Update, EnsureAll, Registrations, EndpointsOf, AssignedEntities, StampApis, DropApis;
    at := RegistrationsAt(files);
    UpdateByParts(l, files);
  }

  // ---------------------------------------------------------------- the names of an updated lock

  lemma {:induction false} EndpointNamesHas(endpoints: seq<Endpoint>, n: string)
    ensures n in EndpointNames(endpoints) <==> exists e :: e in endpoints && e.name == n
  {
    if k :| 0 <= k < |endpoints| && endpoints[k].name == n {
      assert endpoints[k] in endpoints;
    }
  }

  lemma {:induction false} EndpointNamesConcat(a: seq<Endpoint>, b: seq<Endpoint>)
    ensures EndpointNames(a + b) == EndpointNames(a) + EndpointNames(b)
  {
    forall n ensures n in EndpointNames(a + b) <==> n in EndpointNames(a) || n in EndpointNames(b) {
      EndpointNamesHas(a + b, n);
      EndpointNamesHas(a, n);
      EndpointNamesHas(b, n);
    }
  }

  lemma {:induction false} CollectedNames(files: Schema, part: File -> seq<Endpoint>, n: string)
    ensures n in EndpointNames(Collected(files, part)) <==>
      exists i, k :: 0 <= i < |files| && 0 <= k < |part(files[i])| && part(files[i])[k].name == n
  {
    var all := Collected(files, part);
    EndpointNamesHas(all, n);
    if e :| e in all && e.name == n {
      CollectedHas(files, part, e);
      var i :| 0 <= i < |files| && e in part(files[i]);
      var k :| 0 <= k < |part(files[i])| && part(files[i])[k] == e;
      assert part(files[i])[k].name == n;
    }
    if i, k :| 0 <= i < |files| && 0 <= k < |part(files[i])| && part(files[i])[k].name == n {
      CollectedHas(files, part, part(files[i])[k]);
    }
  }

  lemma {:induction false} RemainingNames(files: Schema, at: seq<nat>, n: string)
    requires Remaining(at, Collected(files, (f: File) => f.crud), files)
    ensures n in EndpointNames(At(Collected(files, (f: File) => f.crud), at)) <==> Derives(files, n)
  {
    hide Overridden;
    var crud := Collected(files, (f: File) => f.crud);
    EndpointNamesHas(At(crud, at), n);
    if e :| e in At(crud, at) && e.name == n {
      var k :| 0 <= k < |at| && crud[at[k]] == e;
      assert at[k] in at;
      CollectedHas(files, (f: File) => f.crud, e);
      var i :| 0 <= i < |files| && e in files[i].crud;
      var j :| 0 <= j < |files[i].crud| && files[i].crud[j] == e;
      assert files[i].crud[j].name == n;
    }
    if i, k :| 0 <= i < |files| && 0 <= k < |files[i].crud| && files[i].crud[k].name == n && !Overridden(files, files[i].crud[k]) {
      CollectedHas(files, (f: File) => f.crud, files[i].crud[k]);
      var j :| 0 <= j < |crud| && crud[j] == files[i].crud[k];
      var m :| 0 <= m < |at| && at[m] == j;
      assert At(crud, at)[m] == crud[j];
    }
  }

  lemma {:induction false} DeclaredNames(files: Schema, n: string)
    ensures n in EndpointNames(Collected(files, (f: File) => AsEndpoints(f.apis, ""))) <==> DeclaresApi(files, n)
  {
    var part := (f: File) => AsEndpoints(f.apis, "");
    CollectedNames(files, part, n);
    if i, k :| 0 <= i < |files| && 0 <= k < |part(files[i])| && part(files[i])[k].name == n {
      assert files[i].apis[k].name == n;
    }
    if i, k :| 0 <= i < |files| && 0 <= k < |files[i].apis| && files[i].apis[k].name == n {
      assert part(files[i])[k].name == n;
    }
  }

  lemma {:induction false} ServiceNames(files: Schema, n: string)
    ensures n in EndpointNames(Collected(files, (f: File) => AsEndpoints(f.services, "svc:"))) <==> Serves(files, n)
  {
    var part := (f: File) => AsEndpoints(f.services, "svc:");
    CollectedNames(files, part, n);
    if i, k :| 0 <= i < |files| && 0 <= k < |part(files[i])| && part(files[i])[k].name == n {
      assert "svc:" + files[i].services[k].name == n;
    }
    if i, k :| 0 <= i < |files| && 0 <= k < |files[i].services| && "svc:" + files[i].services[k].name == n {
      assert part(files[i])[k].name == n;
    }
  }

  lemma {:induction false} FederationNames(files: Schema, n: string)
    ensures n in EndpointNames(Collected(files, (f: File) => f.federation)) <==> Federates(files, n)
    ensures n in EndpointNames(Collected(files, (f: File) => f.loads)) <==> LoadsBy(files, n)
  {
    var federation, loads := (f: File) => f.federation, (f: File) => f.loads;
    CollectedNames(files, federation, n);
    CollectedNames(files, loads, n);
    assert forall i :: 0 <= i < |files| ==> federation(files[i]) == files[i].federation && loads(files[i]) == files[i].loads;
  }

  lemma {:induction false} OffersName(files: Schema, at: seq<nat>, n: string)
    requires Remaining(at, Collected(files, (f: File) => f.crud), files)
    ensures n in EndpointNames(EndpointsOf(files, at)) <==> Offers(files, n)
  {
    AtWithin(at, Collected(files, (f: File) => f.crud), files);
    hide Overridden, Remaining, Collected, EndpointNames, Derives, Federates, LoadsBy, DeclaresApi, Serves;
    var a, b, c := At(Collected(files, (f: File) => f.crud), at), Collected(files, (f: File) => f.federation), Collected(files, (f: File) => f.loads);
    var d, e := Collected(files, (f: File) => AsEndpoints(f.apis, "")), Collected(files, (f: File) => AsEndpoints(f.services, "svc:"));
    EndpointNamesConcat(a, b);
    EndpointNamesConcat(a + b, c);
    EndpointNamesConcat(a + b + c, d);
    EndpointNamesConcat(a + b + c + d, e);
    RemainingNames(files, at, n);
    FederationNames(files, n);
    DeclaredNames(files, n);
    ServiceNames(files, n);
  }

  /** After an update the lock has exactly the endpoints of the schema. */
  lemma {:induction false} UpdatedNames(l: Lock, files: Schema, n: string)
    ensures n in Update(l, files).apis <==> Offers(files, n)
  {
    hide Offers, Remaining, Update, EnsureAll, EndpointNames, EndpointsOf, AssignedEntities, ApiContracts, ParamTypes, Collected;
    var at := UpdateRegisters(l, files);
    var regs := EndpointsOf(files, at) by { AtWithin(at, Collected(files, (f: File) => f.crud), files); }
    OffersName(files, at, n);
    EnsureAllNames(AssignedEntities(l, files), regs);
  }

  // ---------------------------------------------------------------- an API that overrides derived endpoints

  ghost predicate HasParams(c: ApiDecl, params: set<string>) {
    forall p :: p in params <==> exists j :: 0 <= j < |c.params| && c.params[j].name == p
  }

  /** The name is declared, every declaration has these parameters, and all derived endpoints of the name defer. */
  ghost predicate DeclaredWith(files: Schema, n: string, params: set<string>) {
    && DeclaresApi(files, n) && !Federates(files, n) && !LoadsBy(files, n) && !Serves(files, n)
    && (forall i, k :: 0 <= i < |files| && 0 <= k < |files[i].crud| && files[i].crud[k].name == n ==> files[i].crud[k].defers)
    && (forall i, k :: 0 <= i < |files| && 0 <= k < |files[i].apis| && files[i].apis[k].name == n ==> HasParams(files[i].apis[k], params))
  }

  lemma {:induction false} ParamsAsNames(c: ApiDecl, params: set<string>)
    requires HasParams(c, params)
    ensures NamesOf(ParamNames(c.params)) == params
  {
    var names := ParamNames(c.params);
    forall p ensures p in NamesOf(names) <==> p in params {
      if j :| 0 <= j < |c.params| && c.params[j].name == p {
        assert names[j] == p;
      }
    }
  }

  lemma {:induction false} NotDerived(files: Schema, at: seq<nat>, n: string)
    requires Remaining(at, Collected(files, (f: File) => f.crud), files) && DeclaresApi(files, n)
    requires forall i, k :: 0 <= i < |files| && 0 <= k < |files[i].crud| && files[i].crud[k].name == n ==> files[i].crud[k].defers
    ensures n !in EndpointNames(At(Collected(files, (f: File) => f.crud), at))
  {
    RemainingNames(files, at, n);
  }

  lemma {:induction false} DeclaredParams(files: Schema, n: string, params: set<string>)
    requires DeclaredWith(files, n, params)
    ensures ParamsFor(Collected(files, (f: File) => AsEndpoints(f.apis, "")), n, params)
  {
    hide HasParams, DeclaresApi, Federates, LoadsBy, Serves, NamesOf;
    var part := (f: File) => AsEndpoints(f.apis, "");
    var all := Collected(files, part);
    forall j | 0 <= j < |all| && all[j].name == n ensures NamesOf(all[j].params) == params {
      CollectedHas(files, part, all[j]);
      var i :| 0 <= i < |files| && all[j] in part(files[i]);
      var k :| 0 <= k < |files[i].apis| && part(files[i])[k] == all[j];
      assert files[i].apis[k].name == n;
      ParamsAsNames(files[i].apis[k], params);
    }
  }

  lemma {:induction false} AbsentParams(regs: seq<Endpoint>, n: string, params: set<string>)
    requires n !in EndpointNames(regs)
    ensures ParamsFor(regs, n, params)
  {
    hide NamesOf;
  }

  lemma {:induction false} ParamsForConcat(a: seq<Endpoint>, b: seq<Endpoint>, n: string, params: set<string>)
    requires ParamsFor(a, n, params) && ParamsFor(b, n, params)
    ensures ParamsFor(a + b, n, params)
  {
    hide NamesOf;
  }

  lemma {:induction false} OnlyDeclaredParams(files: Schema, at: seq<nat>, n: string, params: set<string>)
    requires Remaining(at, Collected(files, (f: File) => f.crud), files) && DeclaredWith(files, n, params)
    ensures ParamsFor(EndpointsOf(files, at), n, params)
  {
    AtWithin(at, Collected(files, (f: File) => f.crud), files);
    NotDerived(files, at, n);
    FederationNames(files, n);
    ServiceNames(files, n);
    DeclaredParams(files, n, params);
    hide Remaining, Collected, EndpointNames, DeclaredWith, ParamsFor;
    var a, b, c := At(Collected(files, (f: File) => f.crud), at), Collected(files, (f: File) => f.federation), Collected(files, (f: File) => f.loads);
    var d, e := Collected(files, (f: File) => AsEndpoints(f.apis, "")), Collected(files, (f: File) => AsEndpoints(f.services, "svc:"));
    assert n !in EndpointNames(b) && n !in EndpointNames(c) && n !in EndpointNames(e);
    AbsentParams(a, n, params);
    AbsentParams(b, n, params);
    AbsentParams(c, n, params);
    AbsentParams(e, n, params);
    ParamsForConcat(a, b, n, params);
    ParamsForConcat(a + b, c, n, params);
    ParamsForConcat(a + b + c, d, n, params);
    ParamsForConcat(a + b + c + d, e, n, params);
  }

  /** The endpoint after an update: its parameters, and what it keeps of the lock before. */
  lemma {:induction false} DeclaredApiUpdated(l: Lock, files: Schema, n: string, params: set<string>)
    requires LockInv(l) && DeclaredWith(files, n, params)
    ensures n in Update(l, files).apis && Update(l, files).apis[n].params.Keys == params
    ensures n in l.apis ==> Update(l, files).apis[n].id == l.apis[n].id
    ensures n in l.apis && l.apis[n].params.Keys <= params ==> ApiRetains(l.apis[n], Update(l, files).apis[n])
  {
    hide MapInv, DeclaresApi, DeclaredWith, Offers, Remaining, Update, EnsureAll, EndpointNames, EndpointsOf, AssignedEntities, ApiContracts, ParamTypes, Collected, ParamsFor, HighWater;
    var at := UpdateRegisters(l, files);
    var regs := EndpointsOf(files, at) by { AtWithin(at, Collected(files, (f: File) => f.crud), files); }
    OnlyDeclaredParams(files, at, n, params);
    assert Offers(files, n) by { Declares(files, n, params); }
    OffersName(files, at, n);
    AssignedOnly(l, files);
    EnsureAllApi(AssignedEntities(l, files), regs, n, params);
  }

  lemma {:induction false} Declares(files: Schema, n: string, params: set<string>)
    requires DeclaredWith(files, n, params)
    ensures Offers(files, n)
  {
  }

  /** An API that overrides derived endpoints of its name has exactly its declared parameters, and no further
      update to the schema changes its ID or the ID of a parameter, or reserves one. */
  lemma {:induction false} OverridingApiSettles(l: Lock, files: Schema, n: string, params: set<string>)
    requires LockInv(l) && DeclaredWith(files, n, params)
    ensures var u := Update(l, files); var u' := Update(u, files);
      && n in u.apis && u.apis[n].params.Keys == params
      && n in u'.apis && u'.apis[n].id == u.apis[n].id && u'.apis[n].params == u.apis[n].params && u'.apis[n].reserved == u.apis[n].reserved
  {
    hide LockInv, Update, DeclaredWith;
    UpdateKeeps(l, files);
    DeclaredApiUpdated(l, files, n, params);
    DeclaredApiUpdated(Update(l, files), files, n, params);
  }
}
