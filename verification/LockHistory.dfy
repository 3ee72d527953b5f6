/**
 Removed IDs stay reserved and are never reused: over every sequence of updates and reloads, on
 arbitrary schemas, an ID given to a field, an API or a parameter never denotes anything else.
 */
module LockHistory {
  import opened Wrappers
  import opened LockModel

  // ---------------------------------------------------------------- conservation of IDs

  /** `[1, top]` is the disjoint union of the live IDs, each of one name, and the reserved ones. */
  ghost predicate Partition(live: map<string, nat>, reserved: set<nat>, top: int) {
    && (forall f :: f in live ==> 1 <= live[f] <= top && live[f] !in reserved)
    && (forall f, g :: f in live && g in live && live[f] == live[g] ==> f == g)
    && (forall id :: id in reserved ==> 1 <= id <= top)
    && (forall id :: 1 <= id <= top && id !in reserved ==> id in IdsOf(live))
  }

  ghost predicate EntityInv(e: Entity) { e.nextId >= 1 && Partition(e.fields, e.reserved, e.nextId - 1) }

  ghost predicate ApiInv(a: Api) { Partition(a.params, a.reserved, HighWater(a)) }

  ghost predicate MapInv(locks: map<string, Entity>) { forall n :: n in locks ==> EntityInv(locks[n]) }

  function ApiIds(apis: map<string, Api>): map<string, nat> { map n | n in apis :: apis[n].id }

  ghost predicate LockInv(l: Lock) {
    && MapInv(l.models) && MapInv(l.types) && MapInv(l.events)
    && (forall n :: n in l.apis ==> ApiInv(l.apis[n]))
    && Partition(ApiIds(l.apis), l.reservedApis, l.nextApi)
  }

  // ---------------------------------------------------------------- what a step may change

  /** IDs up to `top` that are live afterwards were live before, under the same name; `top` and the
      reserved IDs only grow. */
  ghost predicate Keeps(live: map<string, nat>, reserved: set<nat>, top: int, live': map<string, nat>, reserved': set<nat>, top': int) {
    && top <= top' && reserved <= reserved'
    && forall f :: f in live' && live'[f] <= top ==> f in live && live[f] == live'[f]
  }

  ghost predicate Evolves(e: Entity, e': Entity) {
    Keeps(e.fields, e.reserved, e.nextId - 1, e'.fields, e'.reserved, e'.nextId - 1)
  }

  ghost predicate ApiEvolves(a: Api, a': Api) {
    a.id == a'.id && Keeps(a.params, a.reserved, HighWater(a), a'.params, a'.reserved, HighWater(a'))
  }

  ghost predicate MapEvolves(locks: map<string, Entity>, locks': map<string, Entity>) {
    forall n :: n in locks ==> n in locks' && Evolves(locks[n], locks'[n])
  }

  /** APIs of one ID only; an API that returns after its removal has a new ID. */
  ghost predicate ApisEvolve(apis: map<string, Api>, apis': map<string, Api>) {
    forall n :: n in apis && n in apis' && apis[n].id == apis'[n].id ==> ApiEvolves(apis[n], apis'[n])
  }

  ghost predicate LockEvolves(l: Lock, l': Lock) {
    && MapEvolves(l.models, l'.models) && MapEvolves(l.types, l'.types) && MapEvolves(l.events, l'.events)
    && ApisEvolve(l.apis, l'.apis)
    && Keeps(ApiIds(l.apis), l.reservedApis, l.nextApi, ApiIds(l'.apis), l'.reservedApis, l'.nextApi)
  }

  // ---------------------------------------------------------------- one ID space

  function Without(live: map<string, nat>, current: set<string>): map<string, nat> {
    map f | f in live && f in current :: live[f]
  }

  function Dropped(live: map<string, nat>, current: set<string>): set<nat> {
    set f | f in live && f !in current :: live[f]
  }

  /** Reserving what is no longer current conserves the IDs. */
  lemma {:induction false} PartitionDrop(live: map<string, nat>, reserved: set<nat>, top: int, current: set<string>)
    requires Partition(live, reserved, top)
    ensures Partition(Without(live, current), reserved + Dropped(live, current), top)
    ensures Keeps(live, reserved, top, Without(live, current), reserved + Dropped(live, current), top)
  {
    var live', reserved' := Without(live, current), reserved + Dropped(live, current);
    assert forall f :: f in live && f !in current ==> live[f] in Dropped(live, current);
    forall id | 1 <= id <= top && id !in reserved' ensures id in IdsOf(live') {
      var f :| f in live && live[f] == id;
      assert live'[f] == id;
    }
  }

  /** So does giving the next ID to a new name. */
  lemma {:induction false} PartitionAdd(live: map<string, nat>, reserved: set<nat>, top: nat, name: string)
    requires Partition(live, reserved, top) && name !in live
    ensures Partition(live[name := top + 1], reserved, top + 1)
    ensures Keeps(live, reserved, top, live[name := top + 1], reserved, top + 1)
  {
    var live' := live[name := top + 1];
    assert live'[name] == top + 1;
    forall id | 1 <= id <= top && id !in reserved ensures id in IdsOf(live') {
      var f :| f in live && live[f] == id;
      assert live'[f] == id;
    }
  }

  // ---------------------------------------------------------------- fields

  lemma {:induction false} ReserveMissingKeeps(e: Entity, current: set<string>)
    requires EntityInv(e)
    ensures EntityInv(ReserveMissing(e, current)) && Evolves(e, ReserveMissing(e, current))
  {
    hide Partition, Keeps;
    assert ReserveMissing(e, current) ==
      e.(fields := Without(e.fields, current), reserved := e.reserved + Dropped(e.fields, current));
    PartitionDrop(e.fields, e.reserved, e.nextId - 1, current);
  }

  lemma {:induction false} AssignOneKeeps(e: Entity, name: string)
    requires EntityInv(e)
    ensures EntityInv(AssignOne(e, name)) && Evolves(e, AssignOne(e, name))
    ensures AssignOne(e, name).fields.Keys == e.fields.Keys + {name}
    ensures forall f :: f in e.fields ==> AssignOne(e, name).fields[f] == e.fields[f]
    ensures AssignOne(e, name).reserved == e.reserved
  {
    hide Partition, Keeps;
    if name !in e.fields {
      PartitionAdd(e.fields, e.reserved, e.nextId - 1, name);
    } else {
      EvolvesSelf(e);
    }
  }

  lemma {:induction false} AssignKeeps(e: Entity, fields: seq<FieldDecl>)
    requires EntityInv(e)
    ensures EntityInv(Assign(e, fields)) && Evolves(e, Assign(e, fields))
    ensures Assign(e, fields).fields.Keys == e.fields.Keys + FieldNames(fields)
    ensures forall f :: f in e.fields ==> Assign(e, fields).fields[f] == e.fields[f]
    ensures Assign(e, fields).reserved == e.reserved
    decreases |fields|
  {
    hide EntityInv, Evolves;
    if fields == [] {
      assert Evolves(e, e) by { EvolvesSelf(e); }
    } else {
      var front, name := fields[..|fields| - 1], fields[|fields| - 1].name;
      AssignKeeps(e, front);
      AssignOneKeeps(Assign(e, front), name);
      EvolvesTransitive(e, Assign(e, front), Assign(e, fields));
      assert FieldNames(fields) == FieldNames(front) + {name} by { LastName(fields); }
    }
  }

  lemma {:induction false} LastName(fields: seq<FieldDecl>)
    requires fields != []
    ensures FieldNames(fields) == FieldNames(fields[..|fields| - 1]) + {fields[|fields| - 1].name}
  {
    var front := fields[..|fields| - 1];
    forall n | n in FieldNames(fields) ensures n in FieldNames(front) + {fields[|fields| - 1].name} {
      var i :| 0 <= i < |fields| && fields[i].name == n;
      assert i < |front| ==> front[i].name == n;
    }
    forall n | n in FieldNames(front) ensures n in FieldNames(fields) {
      var i :| 0 <= i < |front| && front[i].name == n;
      assert fields[i].name == n;
    }
  }

  lemma {:induction false} EvolvesSelf(e: Entity)
    ensures Evolves(e, e)
  {
  }

  lemma {:induction false} EvolvesTransitive(a: Entity, b: Entity, c: Entity)
    requires Evolves(a, b) && Evolves(b, c)
    ensures Evolves(a, c)
  {
  }

  lemma {:induction false} MapEvolvesTransitive(a: map<string, Entity>, b: map<string, Entity>, c: map<string, Entity>)
    requires MapEvolves(a, b) && MapEvolves(b, c)
    ensures MapEvolves(a, c)
  {
    hide Evolves;
    forall n | n in a ensures n in c && Evolves(a[n], c[n]) {
      EvolvesTransitive(a[n], b[n], c[n]);
    }
  }

  lemma {:induction false} ReserveAllKeeps(locks: map<string, Entity>, contract: map<string, map<string, string>>)
    requires MapInv(locks)
    ensures MapInv(ReserveAll(locks, contract)) && MapEvolves(locks, ReserveAll(locks, contract))
  {
    hide EntityInv, Evolves;
    forall n | n in locks
      ensures EntityInv(ReserveAll(locks, contract)[n]) && Evolves(locks[n], ReserveAll(locks, contract)[n])
    {
      ReserveMissingKeeps(locks[n], Get(contract, n, map[]).Keys);
    }
  }

  lemma {:induction false} NewEntityInv()
    ensures EntityInv(NEW_ENTITY)
  {
  }

  lemma {:induction false} AssignAllKeeps(locks: map<string, Entity>, groups: seq<Group>)
    requires MapInv(locks)
    ensures MapInv(AssignAll(locks, groups)) && MapEvolves(locks, AssignAll(locks, groups))
    decreases |groups|
  {
    hide EntityInv, Evolves, Assign;
    if groups == [] {
      forall n | n in locks ensures Evolves(locks[n], locks[n]) { EvolvesSelf(locks[n]); }
    } else {
      var front, last := groups[..|groups| - 1], groups[|groups| - 1];
      AssignAllKeeps(locks, front);
      var rest := AssignAll(locks, front);
      NewEntityInv();
      AssignKeeps(Get(rest, last.name, NEW_ENTITY), last.fields);
      forall n | n in rest ensures Evolves(rest[n], AssignAll(locks, groups)[n]) {
        EvolvesSelf(rest[n]);
      }
      MapEvolvesTransitive(locks, rest, AssignAll(locks, groups));
    }
  }

  /** `locks'` has the entities of `locks` up to their types. */
  ghost predicate SameIds(locks: map<string, Entity>, locks': map<string, Entity>) {
    && locks.Keys == locks'.Keys
    && forall n :: n in locks ==> locks'[n] == locks[n].(types := locks'[n].types)
  }

  lemma {:induction false} SameIdsKeeps(locks: map<string, Entity>, locks': map<string, Entity>)
    requires SameIds(locks, locks') && MapInv(locks)
    ensures MapInv(locks') && MapEvolves(locks, locks')
  {
  }

  /** One kind of entity through a whole update. */
  lemma {:induction false} EntitiesKeep(locks: map<string, Entity>, contract: map<string, map<string, string>>, groups: seq<Group>, more: seq<Group>)
    requires MapInv(locks)
    ensures var locks' := Stamp(AssignAll(AssignAll(ReserveAll(locks, contract), groups), more), contract);
      MapInv(locks') && MapEvolves(locks, locks')
  {
    hide MapInv, MapEvolves, ReserveAll, AssignAll, Stamp;
    var a := ReserveAll(locks, contract);
    var b := AssignAll(a, groups);
    var c := AssignAll(b, more);
    ReserveAllKeeps(locks, contract);
    AssignAllKeeps(a, groups);
    AssignAllKeeps(b, more);
    assert SameIds(c, Stamp(c, contract)) by { StampSameIds(c, contract); }
    SameIdsKeeps(c, Stamp(c, contract));
    MapEvolvesTransitive(locks, a, b);
    MapEvolvesTransitive(locks, b, c);
    MapEvolvesTransitive(locks, c, Stamp(c, contract));
  }

  lemma {:induction false} StampSameIds(locks: map<string, Entity>, contract: map<string, map<string, string>>)
    ensures SameIds(locks, Stamp(locks, contract))
  {
  }

  // ---------------------------------------------------------------- parameters

  lemma {:induction false} HighWaterExact(a: Api, top: nat)
    requires Partition(a.params, a.reserved, top) && a.nextP <= top
    ensures HighWater(a) == top
  {
    var s := {a.nextP} + IdsOf(a.params) + a.reserved;
    assert forall x :: x in s ==> x <= top;
    if top > 0 {
      assert top in s;
    }
  }

  lemma {:induction false} AssignParamsKeeps(a: Api, names: seq<string>)
    requires Partition(a.params, a.reserved, a.nextP)
    ensures var a' := AssignParams(a, names);
      && Partition(a'.params, a'.reserved, a'.nextP)
      && Keeps(a.params, a.reserved, a.nextP, a'.params, a'.reserved, a'.nextP)
      && a' == a.(params := a'.params, nextP := a'.nextP)
      && a'.params.Keys == a.params.Keys + NamesOf(names)
      && (forall p :: p in a.params ==> a'.params[p] == a.params[p])
    decreases |names|
  {
    hide Partition, Keeps, NamesOf;
    if names == [] {
      KeepsSelf(a.params, a.reserved, a.nextP);
      assert NamesOf(names) == {} by { NoNames(); }
    } else {
      var front, name := names[..|names| - 1], names[|names| - 1];
      AssignParamsKeeps(a, front);
      LastOf(names);
      var b, c := AssignParams(a, front), AssignParams(a, names);
      assert c == AssignParam(b, name);
      if name !in b.params {
        PartitionAdd(b.params, b.reserved, b.nextP, name);
        KeepsTransitive(a.params, a.reserved, a.nextP, b.params, b.reserved, b.nextP, c.params, c.reserved, c.nextP);
      }
    }
  }

  lemma {:induction false} KeepsSelf(live: map<string, nat>, reserved: set<nat>, top: int)
    ensures Keeps(live, reserved, top, live, reserved, top)
  {
  }

  lemma {:induction false} NoNames()
    ensures NamesOf([]) == {}
  {
  }

  lemma {:induction false} LastOf(names: seq<string>)
    requires names != []
    ensures NamesOf(names) == NamesOf(names[..|names| - 1]) + {names[|names| - 1]}
  {
    var front := names[..|names| - 1];
    forall n | n in NamesOf(names) ensures n in NamesOf(front) + {names[|names| - 1]} {
      var i :| 0 <= i < |names| && names[i] == n;
      assert i < |front| ==> front[i] == n;
    }
  }

  lemma {:induction false} DropParamsKeeps(a: Api, current: set<string>, top: nat)
    requires Partition(a.params, a.reserved, top)
    ensures var a' := DropParams(a, current);
      && Partition(a'.params, a'.reserved, top)
      && Keeps(a.params, a.reserved, top, a'.params, a'.reserved, top)
  {
    hide Partition, Keeps;
    assert DropParams(a, current) ==
      a.(params := Without(a.params, current), reserved := a.reserved + Dropped(a.params, current));
    PartitionDrop(a.params, a.reserved, top, current);
  }

  lemma {:induction false} DropParamsShape(a: Api, current: set<string>)
    ensures var a' := DropParams(a, current);
      && a' == a.(params := a'.params, reserved := a'.reserved)
      && a'.params.Keys == a.params.Keys * current
      && (forall p :: p in a'.params ==> a'.params[p] == a.params[p])
      && (a.params.Keys <= current ==> a'.reserved == a.reserved)
  {
  }

  lemma {:induction false} EnsureParamsKeeps(a: Api, names: seq<string>)
    requires ApiInv(a)
    ensures var a' := EnsureParams(a, names);
      && ApiInv(a') && ApiEvolves(a, a') && a'.nextP == HighWater(a')
      && a'.params.Keys == NamesOf(names)
      && (forall p :: p in a.params && p in a'.params ==> a'.params[p] == a.params[p])
      && (a.params.Keys <= NamesOf(names) ==> a'.reserved == a.reserved)
      && a' == a.(params := a'.params, reserved := a'.reserved, nextP := a'.nextP)
  {
    hide Keeps, Partition, HighWater, AssignParams, DropParams, NamesOf;
    var b := a.(nextP := HighWater(a));
    var c := AssignParams(b, names);
    var a' := DropParams(c, NamesOf(names));
    AssignParamsKeeps(b, names);
    DropParamsKeeps(c, NamesOf(names), c.nextP);
    DropParamsShape(c, NamesOf(names));
    HighWaterExact(a', c.nextP);
    KeepsTransitive(a.params, a.reserved, HighWater(a), c.params, c.reserved, c.nextP, a'.params, a'.reserved, c.nextP);
  }

  lemma {:induction false} KeepsTransitive(live: map<string, nat>, reserved: set<nat>, top: int, live': map<string, nat>, reserved': set<nat>, top': int,
                                           live'': map<string, nat>, reserved'': set<nat>, top'': int)
    requires Keeps(live, reserved, top, live', reserved', top') && Keeps(live', reserved', top', live'', reserved'', top'')
    ensures Keeps(live, reserved, top, live'', reserved'', top'')
  {
  }

  // ---------------------------------------------------------------- endpoints

  ghost predicate ApisInv(l: Lock) {
    (forall n :: n in l.apis ==> ApiInv(l.apis[n])) && Partition(ApiIds(l.apis), l.reservedApis, l.nextApi)
  }

  ghost predicate ApiPartEvolves(l: Lock, l': Lock) {
    && ApisEvolve(l.apis, l'.apis)
    && Keeps(ApiIds(l.apis), l.reservedApis, l.nextApi, ApiIds(l'.apis), l'.reservedApis, l'.nextApi)
  }

  lemma {:induction false} NewApiInv(id: nat)
    ensures ApiInv(NewApi(id))
  {
    assert HighWater(NewApi(id)) == 0;
  }

  lemma {:induction false} ApiEvolvesSelf(a: Api)
    ensures ApiEvolves(a, a)
  {
  }

  lemma {:induction false} ApiPartEvolvesTransitive(a: Lock, b: Lock, c: Lock)
    requires ApisInv(a) && ApisInv(b) && ApiPartEvolves(a, b) && ApiPartEvolves(b, c)
    ensures ApiPartEvolves(a, c)
  {
    hide ApiInv, HighWater;
    forall n | n in a.apis && n in c.apis && a.apis[n].id == c.apis[n].id
      ensures ApiEvolves(a.apis[n], c.apis[n])
    {
      assert ApiIds(a.apis)[n] == a.apis[n].id && ApiIds(c.apis)[n] == c.apis[n].id;
      assert n in ApiIds(b.apis) && ApiIds(b.apis)[n] == c.apis[n].id;
    }
    KeepsTransitive(ApiIds(a.apis), a.reservedApis, a.nextApi, ApiIds(b.apis), b.reservedApis, b.nextApi,
                    ApiIds(c.apis), c.reservedApis, c.nextApi);
  }

  /** An entry that evolves under its own ID. */
  lemma {:induction false} ReplaceApi(l: Lock, n: string, a: Api)
    requires ApisInv(l) && n in l.apis && ApiInv(a) && ApiEvolves(l.apis[n], a)
    ensures var l' := l.(apis := l.apis[n := a]); ApisInv(l') && ApiPartEvolves(l, l')
  {
    hide ApiInv, Partition, Keeps, HighWater;
    var l' := l.(apis := l.apis[n := a]);
    assert ApiIds(l'.apis) == ApiIds(l.apis);
    KeepsSelf(ApiIds(l.apis), l.reservedApis, l.nextApi);
    forall m | m in l.apis && m != n ensures ApiEvolves(l.apis[m], l'.apis[m]) { ApiEvolvesSelf(l.apis[m]); }
  }

  /** An entry under a new name, with the next ID. */
  lemma {:induction false} AddApi(l: Lock, n: string, a: Api)
    requires ApisInv(l) && n !in l.apis && ApiInv(a) && a.id == l.nextApi + 1
    ensures var l' := l.(apis := l.apis[n := a], nextApi := l.nextApi + 1); ApisInv(l') && ApiPartEvolves(l, l')
  {
    hide ApiInv, ApiEvolves, Partition, Keeps;
    var l' := l.(apis := l.apis[n := a], nextApi := l.nextApi + 1);
    assert ApiIds(l'.apis) == ApiIds(l.apis)[n := l.nextApi + 1];
    PartitionAdd(ApiIds(l.apis), l.reservedApis, l.nextApi, n);
    forall m | m in l.apis ensures ApiEvolves(l.apis[m], l'.apis[m]) { ApiEvolvesSelf(l.apis[m]); }
  }

  lemma {:induction false} EnsureKeeps(l: Lock, e: Endpoint)
    requires ApisInv(l)
    ensures ApisInv(Ensure(l, e)) && ApiPartEvolves(l, Ensure(l, e))
  {
    hide ApiInv, ApiEvolves, EnsureParams, Partition, Keeps, ApisEvolve, ApiPartEvolves;
    if e.name in l.apis {
      EnsureParamsKeeps(l.apis[e.name], e.params);
      ReplaceApi(l, e.name, EnsureParams(l.apis[e.name], e.params));
    } else {
      var api := NewApi(l.nextApi + 1);
      NewApiInv(l.nextApi + 1);
      EnsureParamsKeeps(api, e.params);
      SameApiId(api, e.params);
      AddApi(l, e.name, EnsureParams(api, e.params));
    }
  }

  lemma {:induction false} SameApiId(a: Api, names: seq<string>)
    requires ApiInv(a)
    ensures EnsureParams(a, names).id == a.id
  {
    EnsureParamsKeeps(a, names);
  }

  lemma {:induction false} EnsureAllKeeps(l: Lock, endpoints: seq<Endpoint>)
    requires ApisInv(l)
    ensures ApisInv(EnsureAll(l, endpoints)) && ApiPartEvolves(l, EnsureAll(l, endpoints))
    decreases |endpoints|
  {
    hide ApisInv, ApiPartEvolves, Ensure;
    if endpoints == [] {
      ApiPartSelf(l);
    } else {
      var front, last := endpoints[..|endpoints| - 1], endpoints[|endpoints| - 1];
      EnsureAllKeeps(l, front);
      EnsureKeeps(EnsureAll(l, front), last);
      ApiPartEvolvesTransitive(l, EnsureAll(l, front), EnsureAll(l, endpoints));
    }
  }

  lemma {:induction false} ApiPartSelf(l: Lock)
    ensures ApiPartEvolves(l, l)
  {
    hide ApiEvolves;
    forall n | n in l.apis ensures ApiEvolves(l.apis[n], l.apis[n]) { ApiEvolvesSelf(l.apis[n]); }
  }

  lemma {:induction false} DropApisKeeps(l: Lock, active: set<string>)
    requires ApisInv(l)
    ensures ApisInv(DropApis(l, active)) && ApiPartEvolves(l, DropApis(l, active))
  {
    hide ApiInv, ApiEvolves, Partition, Keeps;
    var l' := DropApis(l, active);
    forall n | n in l'.apis ensures ApiEvolves(l.apis[n], l'.apis[n]) { ApiEvolvesSelf(l.apis[n]); }
    assert ApiIds(l'.apis) == Without(ApiIds(l.apis), active);
    assert l'.reservedApis == l.reservedApis + Dropped(ApiIds(l.apis), active);
    PartitionDrop(ApiIds(l.apis), l.reservedApis, l.nextApi, active);
  }

  lemma {:induction false} StampApisKeeps(l: Lock, contracts: map<string, ApiDecl>)
    requires ApisInv(l)
    ensures var l' := l.(apis := StampApis(l.apis, contracts));
      ApisInv(l') && ApiPartEvolves(l, l')
  {
    var l' := l.(apis := StampApis(l.apis, contracts));
    hide Partition, Keeps, ParamTypes;
    assert ApiIds(l'.apis) == ApiIds(l.apis);
    KeepsSelf(ApiIds(l.apis), l.reservedApis, l.nextApi);
    forall n | n in l.apis
      ensures ApiInv(l'.apis[n]) && ApiEvolves(l.apis[n], l'.apis[n])
    {
      assert HighWater(l'.apis[n]) == HighWater(l.apis[n]);
      KeepsSelf(l.apis[n].params, l.apis[n].reserved, HighWater(l.apis[n]));
    }
  }

  // ---------------------------------------------------------------- whole steps

  /** One update, on an arbitrary schema, conserves the IDs and reuses none. */
  lemma {:induction false} UpdateKeeps(l: Lock, files: Schema)
    requires LockInv(l)
    ensures LockInv(Update(l, files)) && LockEvolves(l, Update(l, files))
  {
    hide MapInv, MapEvolves, ReserveAll, AssignAll, Stamp, EnsureAll, DropApis, StampApis, Registrations, HighWater;
    hide ModelContract, TypeContract, EventContract, ApiContracts, ApiInv, ApisEvolve, Partition, Keeps;
    var regs := Registrations(files);
    EntitiesKeep(l.models, ModelContract(files), Models(files), Extensions(files));
    EntitiesKeep(l.types, TypeContract(files), Types(files), []);
    EntitiesKeep(l.events, EventContract(files), Events(files), []);
    NothingToAssign(AssignAll(ReserveAll(l.types, TypeContract(files)), Types(files)));
    NothingToAssign(AssignAll(ReserveAll(l.events, EventContract(files)), Events(files)));
    var l0 := AssignedEntities(l, files);
    ApisOnly(l, l0);
    EnsureAllKeeps(l0, regs);
    var l1 := EnsureAll(l0, regs);
    DropApisKeeps(l1, EndpointNames(regs));
    var l2 := DropApis(l1, EndpointNames(regs));
    StampApisKeeps(l2, ApiContracts(files));
    var l3 := l2.(apis := StampApis(l2.apis, ApiContracts(files)));
    ApiPartEvolvesTransitive(l0, l1, l2);
    ApiPartEvolvesTransitive(l0, l2, l3);
    EntitiesUntouched(l0, regs);
    UpdateParts(l, files);
  }

  /** The lock between the field updates and the API update. */
  ghost function AssignedEntities(l: Lock, files: Schema): Lock {
    var models := AssignAll(ReserveAll(l.models, ModelContract(files)), Models(files));
    l.(models := AssignAll(models, Extensions(files)),
       types := AssignAll(ReserveAll(l.types, TypeContract(files)), Types(files)),
       events := AssignAll(ReserveAll(l.events, EventContract(files)), Events(files)))
  }

  lemma {:induction false} UpdateParts(l: Lock, files: Schema)
    ensures var l2 := UpdateApis(AssignedEntities(l, files), files);
      Update(l, files) == l2.(models := Stamp(l2.models, ModelContract(files)), types := Stamp(l2.types, TypeContract(files)),
        events := Stamp(l2.events, EventContract(files)), apis := StampApis(l2.apis, ApiContracts(files)))
  {
  }

  lemma {:induction false} NothingToAssign(locks: map<string, Entity>)
    ensures AssignAll(locks, []) == locks
  {
  }

  lemma {:induction false} ApisOnly(l: Lock, l0: Lock)
    requires LockInv(l) && l0 == l.(models := l0.models, types := l0.types, events := l0.events)
    ensures ApisInv(l0)
  {
  }

  lemma {:induction false} EntitiesUntouched(l: Lock, endpoints: seq<Endpoint>)
    ensures var l' := EnsureAll(l, endpoints);
      l' == l.(apis := l'.apis, nextApi := l'.nextApi)
    ensures var l' := DropApis(EnsureAll(l, endpoints), EndpointNames(endpoints));
      l' == l.(apis := l'.apis, nextApi := l'.nextApi, reservedApis := l'.reservedApis)
    decreases |endpoints|
  {
    if endpoints != [] {
      EntitiesUntouched(l, endpoints[..|endpoints| - 1]);
    }
  }

  /** The endpoints after a reload: the counter of the parameters is gone, and not needed. */
  lemma {:induction false} ReloadedApi(a: Api)
    requires ApiInv(a)
    ensures var a' := a.(nextP := 0);
      ApiInv(a') && ApiEvolves(a, a') && HighWater(a') == HighWater(a)
  {
    hide HighWater, Partition, Keeps;
    HighWaterExact(a.(nextP := 0), HighWater(a));
    KeepsSelf(a.params, a.reserved, HighWater(a));
  }

  lemma {:induction false} ReloadedApisKeep(l: Lock)
    requires ApisInv(l)
    ensures var l' := Reload(l); ApisInv(l') && ApiPartEvolves(l, l')
    ensures forall n :: n in l.apis ==> n in Reload(l).apis && HighWater(Reload(l).apis[n]) == HighWater(l.apis[n])
    ensures Reload(l).nextApi == l.nextApi
  {
    hide ApiInv, ApiEvolves, HighWater, Keeps, ForgetEmptyTypes;
    var l' := Reload(l);
    assert ApiIds(l'.apis) == ApiIds(l.apis);
    ReloadedCounter(l);
    KeepsSelf(ApiIds(l.apis), l.reservedApis, l.nextApi);
    forall n | n in l.apis
      ensures ApiInv(l'.apis[n]) && ApiEvolves(l.apis[n], l'.apis[n]) && HighWater(l'.apis[n]) == HighWater(l.apis[n])
    {
      ReloadedApi(l.apis[n]);
    }
  }

  lemma {:induction false} ReloadedCounter(l: Lock)
    requires ApisInv(l)
    ensures Reload(l).nextApi == l.nextApi
  {
    hide ApiInv, ForgetEmptyTypes;
    ApiIdSet(l.apis);
    CounterExact(IdsOf(ApiIds(l.apis)) + l.reservedApis, l.nextApi);
  }

  /** Saving and loading changes no ID, and recomputes the counters that the file does not hold. */
  lemma {:induction false} ReloadKeeps(l: Lock)
    requires LockInv(l)
    ensures LockInv(Reload(l)) && LockEvolves(l, Reload(l))
    ensures Reload(l).nextApi == l.nextApi && Reload(l).reservedApis == l.reservedApis
    ensures forall n :: n in l.apis ==> n in Reload(l).apis && HighWater(Reload(l).apis[n]) == HighWater(l.apis[n])
  {
    hide MapInv, MapEvolves, ApiInv, ApisEvolve, HighWater, Partition, Keeps;
    ReloadedApisKeep(l);
    ForgetKeeps(l.models);
    ForgetKeeps(l.types);
    ForgetKeeps(l.events);
  }

  lemma {:induction false} ApiIdSet(apis: map<string, Api>)
    ensures IdsOf(ApiIds(apis)) == set n | n in apis :: apis[n].id
  {
    forall n | n in apis ensures apis[n].id in IdsOf(ApiIds(apis)) {
      assert ApiIds(apis)[n] == apis[n].id;
    }
  }

  lemma {:induction false} CounterExact(s: set<nat>, top: nat)
    requires forall x :: x in s ==> x <= top
    requires top == 0 || top in s
    ensures MaxOf(s) == top
  {
  }

  lemma {:induction false} ForgetKeeps(locks: map<string, Entity>)
    requires MapInv(locks)
    ensures MapInv(ForgetEmptyTypes(locks)) && MapEvolves(locks, ForgetEmptyTypes(locks))
  {
    SameIdsKeeps(locks, ForgetEmptyTypes(locks));
  }

  lemma {:induction false} LockEvolvesTransitive(a: Lock, b: Lock, c: Lock)
    requires LockInv(a) && LockInv(b) && LockEvolves(a, b) && LockEvolves(b, c)
    ensures LockEvolves(a, c)
  {
    hide MapInv, MapEvolves, ApiInv, ApisEvolve, Partition, Keeps;
    MapEvolvesTransitive(a.models, b.models, c.models);
    MapEvolvesTransitive(a.types, b.types, c.types);
    MapEvolvesTransitive(a.events, b.events, c.events);
    ApiPartEvolvesTransitive(a, b, c);
  }

  // ---------------------------------------------------------------- histories

  /** A generator run works on the loaded lock, and possibly on the same one in memory again. */
  datatype Step = UpdateTo(files: Schema) | SaveAndLoad

  ghost function Next(l: Lock, step: Step): Lock {
    match step
    case UpdateTo(files) => Update(l, files)
    case SaveAndLoad => Reload(l)
  }

  ghost function From(l: Lock, steps: seq<Step>): Lock
    decreases |steps|
  {
    if steps == [] then l else Next(From(l, steps[..|steps| - 1]), steps[|steps| - 1])
  }

  /** The lock after a history that starts without a lock file. */
  ghost function After(steps: seq<Step>): Lock { From(NEW_LOCK, steps) }

  /** Conservation of IDs: in every reachable lock the IDs given out are the live and the reserved ones. */
  lemma {:induction false} ReachableInv(steps: seq<Step>)
    ensures LockInv(After(steps))
    decreases |steps|
  {
    hide LockInv, LockEvolves, Update, Reload;
    if steps == [] {
      NewLockInv();
    } else {
      var front := steps[..|steps| - 1];
      ReachableInv(front);
      StepKeeps(After(front), steps[|steps| - 1]);
    }
  }

  lemma {:induction false} NewLockInv()
    ensures LockInv(NEW_LOCK)
  {
  }

  lemma {:induction false} StepKeeps(l: Lock, step: Step)
    requires LockInv(l)
    ensures LockInv(Next(l, step)) && LockEvolves(l, Next(l, step))
  {
    hide LockInv, LockEvolves, Update, Reload;
    match step
    case UpdateTo(files) => UpdateKeeps(l, files);
    case SaveAndLoad => ReloadKeeps(l);
  }

  lemma {:induction false} HistoryEvolves(steps: seq<Step>, i: nat)
    requires i <= |steps|
    ensures LockEvolves(After(steps[..i]), After(steps))
    decreases |steps|
  {
    hide LockInv, LockEvolves, Next;
    if i == |steps| {
      assert steps[..i] == steps;
      ReachableInv(steps);
      LockEvolvesSelf(After(steps));
    } else {
      var front := steps[..|steps| - 1];
      assert front[..i] == steps[..i];
      HistoryEvolves(front, i);
      ReachableInv(steps[..i]);
      ReachableInv(front);
      StepKeeps(After(front), steps[|steps| - 1]);
      LockEvolvesTransitive(After(steps[..i]), After(front), After(steps));
    }
  }

  lemma {:induction false} LockEvolvesSelf(l: Lock)
    ensures LockEvolves(l, l)
  {
    hide Evolves, ApisEvolve, Keeps;
    forall n | n in l.models ensures Evolves(l.models[n], l.models[n]) { EvolvesSelf(l.models[n]); }
    forall n | n in l.types ensures Evolves(l.types[n], l.types[n]) { EvolvesSelf(l.types[n]); }
    forall n | n in l.events ensures Evolves(l.events[n], l.events[n]) { EvolvesSelf(l.events[n]); }
    ApiPartSelf(l);
  }

  ghost predicate Denotes(locks: map<string, Entity>, entity: string, field: string, id: nat) {
    entity in locks && field in locks[entity].fields && locks[entity].fields[field] == id
  }

  lemma {:induction false} DenotesOnce(locks: map<string, Entity>, locks': map<string, Entity>, entity: string, f: string, g: string, id: nat)
    requires MapInv(locks) && MapEvolves(locks, locks')
    requires Denotes(locks, entity, f, id) && Denotes(locks', entity, g, id)
    ensures f == g
  {
    assert EntityInv(locks[entity]) && Evolves(locks[entity], locks'[entity]);
  }

  /** Safety over histories, fields: an ID of a model, type or event denotes one field name for ever. */
  lemma {:induction false} FieldIdsNeverReused(steps: seq<Step>, i: nat, entity: string, f: string, g: string, id: nat)
    requires i <= |steps|
    ensures var l, l' := After(steps[..i]), After(steps);
      && (Denotes(l.models, entity, f, id) && Denotes(l'.models, entity, g, id) ==> f == g)
      && (Denotes(l.types, entity, f, id) && Denotes(l'.types, entity, g, id) ==> f == g)
      && (Denotes(l.events, entity, f, id) && Denotes(l'.events, entity, g, id) ==> f == g)
  {
    hide MapInv, MapEvolves, Denotes, After, ApiInv, ApisEvolve, Partition, Keeps;
    var l, l' := After(steps[..i]), After(steps);
    ReachableInv(steps[..i]);
    HistoryEvolves(steps, i);
    if Denotes(l.models, entity, f, id) && Denotes(l'.models, entity, g, id) {
      DenotesOnce(l.models, l'.models, entity, f, g, id);
    }
    if Denotes(l.types, entity, f, id) && Denotes(l'.types, entity, g, id) {
      DenotesOnce(l.types, l'.types, entity, f, g, id);
    }
    if Denotes(l.events, entity, f, id) && Denotes(l'.events, entity, g, id) {
      DenotesOnce(l.events, l'.events, entity, f, g, id);
    }
  }

  /** Safety over histories, APIs: an API ID denotes one API, and with a parameter ID one parameter. */
  lemma {:induction false} ApiIdsNeverReused(steps: seq<Step>, i: nat, n: string, m: string, p: string, q: string)
    requires i <= |steps|
    requires n in After(steps[..i]).apis && m in After(steps).apis
    requires After(steps[..i]).apis[n].id == After(steps).apis[m].id
    ensures n == m
    ensures var a, b := After(steps[..i]).apis[n], After(steps).apis[m];
      p in a.params && q in b.params && a.params[p] == b.params[q] ==> p == q
  {
    hide After, MapInv, MapEvolves, HighWater;
    var l, l' := After(steps[..i]), After(steps);
    ReachableInv(steps[..i]);
    HistoryEvolves(steps, i);
    assert ApiIds(l.apis)[n] == l.apis[n].id && ApiIds(l'.apis)[m] == l'.apis[m].id;
    assert ApiInv(l.apis[n]) && ApiEvolves(l.apis[n], l'.apis[n]);
  }
}
