/**
 The lock file as the object it is: maps of entries updated in place, iterated in Go's arbitrary
 map order, with the reserved IDs in slices. Every method is proved against LockModel.
 */
module LockFileObject {
  import opened Wrappers
  import opened LockModel
  import LockSilence

  datatype ModelLock = ModelLock(nextId: nat, fields: map<string, nat>, fieldTypes: Option<map<string, string>>, reserved: seq<nat>)

  datatype ApiLock = ApiLock(id: nat, params: map<string, nat>, reserved: seq<nat>, nextP: nat,
                             contract: bool, paramTypes: map<string, string>, returnType: string)

  function Elements(s: seq<nat>): set<nat> { set i | 0 <= i < |s| :: s[i] }

  function Entry(ml: ModelLock): Entity { Entity(ml.nextId, ml.fields, ml.fieldTypes, Elements(ml.reserved)) }

  function ApiEntry(al: ApiLock): Api {
    Api(al.id, al.params, Elements(al.reserved), al.nextP, al.contract, al.paramTypes, al.returnType)
  }

  function Entries(locks: map<string, ModelLock>): map<string, Entity> { map n | n in locks :: Entry(locks[n]) }

  function ApiEntries(apis: map<string, ApiLock>): map<string, Api> { map n | n in apis :: ApiEntry(apis[n]) }

  lemma {:induction false} Appended(s: seq<nat>, x: nat)
    ensures Elements(s + [x]) == Elements(s) + {x}
  {
    assert (s + [x])[|s|] == x;
    forall y | y in Elements(s) ensures y in Elements(s + [x]) {
      var i :| 0 <= i < |s| && s[i] == y;
      assert (s + [x])[i] == y;
    }
  }

  lemma {:induction false} InElements(s: seq<nat>, x: nat)
    ensures x in s <==> x in Elements(s)
  {
  }

  // ---------------------------------------------------------------- entries

  predicate NoDuplicates(s: seq<nat>) { forall i, j :: 0 <= i < j < |s| ==> s[i] != s[j] }

  predicate OneNameEach(live: map<string, nat>) { forall f, g :: f in live && g in live && live[f] == live[g] ==> f == g }

  lemma {:induction false} AppendedOnce(s: seq<nat>, x: nat)
    requires x !in Elements(s)
    ensures NoDuplicates(s) ==> NoDuplicates(s + [x])
  {
    assert forall i :: 0 <= i < |s| ==> s[i] in Elements(s);
  }

  lemma {:induction false} SpelledOut(live: map<string, nat>, s: seq<nat>, t: seq<nat>)
    requires OneNameEach(live) && NoDuplicates(s) ==> NoDuplicates(t)
    ensures (forall f, g :: f in live && g in live && live[f] == live[g] ==> f == g) && (forall i, j :: 0 <= i < j < |s| ==> s[i] != s[j])
      ==> forall i, j :: 0 <= i < j < |t| ==> t[i] != t[j]
  {
  }

  /** Moves the IDs of removed names to the reserved slice, behind those that are there, deleting while it
      iterates. When every live ID has one name, no ID is reserved twice. */
  method ReserveRemoved(live: map<string, nat>, reserved: seq<nat>, current: set<string>)
    returns (live': map<string, nat>, reserved': seq<nat>)
    ensures live' == map f | f in live && f in current :: live[f]
    ensures Elements(reserved') == Elements(reserved) + set f | f in live && f !in current :: live[f]
    ensures reserved <= reserved'
    ensures (forall f, g :: f in live && g in live && live[f] == live[g] ==> f == g)
      && (forall i, j :: 0 <= i < j < |reserved| ==> reserved[i] != reserved[j])
      ==> forall i, j :: 0 <= i < j < |reserved'| ==> reserved'[i] != reserved'[j]
  {
    hide NoDuplicates, Elements;
    live', reserved' := live, reserved;
    var pending := live.Keys;
    while pending != {}
      invariant pending <= live.Keys
      invariant live' == map f | f in live && (f in current || f in pending) :: live[f]
      invariant Elements(reserved') == Elements(reserved) + set f | f in live && f !in current && f !in pending :: live[f]
      invariant reserved <= reserved' && (OneNameEach(live) && NoDuplicates(reserved) ==> NoDuplicates(reserved'))
    {
      var name :| name in pending;
      var id := live[name];
      ghost var done := set f | f in live && f !in current && f !in pending :: live[f];
      if name !in current {
        InElements(reserved, id);
        if id !in reserved {
          Appended(reserved', id);
          if OneNameEach(live) {
            AppendedOnce(reserved', id);
          }
          reserved' := reserved' + [id];
        }
        live' := map f | f in live' && f != name :: live'[f];
      }
      pending := pending - {name};
      assert (set f | f in live && f !in current && f !in pending :: live[f]) ==
        done + (if name !in current then {id} else {});
    }
    SpelledOut(live, reserved, reserved');
  }

  method ReserveMissingFields(ml: ModelLock, current: set<string>) returns (r: ModelLock)
    ensures Entry(r) == ReserveMissing(Entry(ml), current)
  {
    var fields, reserved := ReserveRemoved(ml.fields, ml.reserved, current);
    r := ml.(fields := fields, reserved := reserved);
  }

  method AssignFields(ml: ModelLock, fields: seq<FieldDecl>) returns (r: ModelLock)
    ensures Entry(r) == Assign(Entry(ml), fields)
  {
    r := ml;
    for i := 0 to |fields|
      invariant Entry(r) == Assign(Entry(ml), fields[..i])
    {
      assert fields[..i + 1][..i] == fields[..i];
      if fields[i].name !in r.fields {
        r := r.(fields := r.fields[fields[i].name := r.nextId], nextId := r.nextId + 1);
      }
    }
    assert fields[..|fields|] == fields;
  }

  method ReserveEntries(locks: map<string, ModelLock>, contract: map<string, map<string, string>>) returns (r: map<string, ModelLock>)
    ensures Entries(r) == ReserveAll(Entries(locks), contract)
  {
    hide ReserveMissing, Elements, Get;
    r := locks;
    var pending := locks.Keys;
    while pending != {}
      invariant pending <= locks.Keys == r.Keys
      invariant forall n :: n in pending ==> r[n] == locks[n]
      invariant forall n :: n in locks && n !in pending ==>
        Entry(r[n]) == ReserveMissing(Entry(locks[n]), Get(contract, n, map[]).Keys)
    {
      var n :| n in pending;
      var ml := locks[n];
      ml := ReserveMissingFields(ml, Get(contract, n, map[]).Keys);
      r := r[n := ml];
      pending := pending - {n};
    }
  }

  method AssignEntries(locks: map<string, ModelLock>, groups: seq<Group>) returns (r: map<string, ModelLock>)
    ensures Entries(r) == AssignAll(Entries(locks), groups)
  {
    r := locks;
    for i := 0 to |groups|
      invariant Entries(r) == AssignAll(Entries(locks), groups[..i])
    {
      var g := groups[i];
      assert groups[..i + 1][..i] == groups[..i];
      var ml := if g.name in r then r[g.name] else ModelLock(1, map[], None, []);
      assert Entry(ml) == Get(Entries(r), g.name, NEW_ENTITY);
      ghost var before := r;
      ml := AssignFields(ml, g.fields);
      r := r[g.name := ml];
      assert Entries(r) == Entries(before)[g.name := Entry(ml)];
    }
    assert groups[..|groups|] == groups;
  }

  method MaxId(ids: map<string, nat>, reserved: seq<nat>, start: nat) returns (m: nat)
    ensures m == MaxOf({start} + IdsOf(ids) + Elements(reserved))
  {
    m := start;
    var pending := ids.Keys;
    while pending != {}
      invariant pending <= ids.Keys
      invariant m == start || m in IdsOf(ids)
      invariant start <= m && forall p :: p in ids && p !in pending ==> ids[p] <= m
    {
      var p :| p in pending;
      if ids[p] > m {
        m := ids[p];
      }
      pending := pending - {p};
    }
    for i := 0 to |reserved|
      invariant m == start || m in IdsOf(ids) || m in Elements(reserved)
      invariant start <= m && forall p :: p in ids ==> ids[p] <= m
      invariant forall j :: 0 <= j < i ==> reserved[j] <= m
    {
      if reserved[i] > m {
        m := reserved[i];
      }
    }
    ghost var s := {start} + IdsOf(ids) + Elements(reserved);
    assert m in s && forall x :: x in s ==> x <= m;
    assert MaxOf(s) in s;
  }

  /** ensureAPIID on an existing entry: counter from what is in use, new parameters, removed ones. */
  method SyncParams(al: ApiLock, params: seq<string>) returns (r: ApiLock)
    ensures ApiEntry(r) == EnsureParams(ApiEntry(al), params)
  {
    var nextP := MaxId(al.params, al.reserved, al.nextP);
    r := al.(nextP := nextP);
    ghost var start := r;
    for i := 0 to |params|
      invariant ApiEntry(r) == AssignParams(ApiEntry(start), params[..i]) && r.reserved == al.reserved
    {
      assert params[..i + 1][..i] == params[..i];
      if params[i] !in r.params {
        r := r.(params := r.params[params[i] := r.nextP + 1], nextP := r.nextP + 1);
      }
    }
    assert params[..|params|] == params;
    var current := NamesOf(params);
    ghost var a := ApiEntry(r);
    var live, reserved := ReserveRemoved(r.params, r.reserved, current);
    r := r.(params := live, reserved := reserved);
    assert ApiEntry(r) == DropParams(a, current);
  }

  method StampEntries(locks: map<string, ModelLock>, contract: map<string, map<string, string>>) returns (r: map<string, ModelLock>)
    ensures Entries(r) == Stamp(Entries(locks), contract)
  {
    hide KnownTypes, Get, Elements;
    r := locks;
    var pending := locks.Keys;
    while pending != {}
      invariant pending <= locks.Keys == r.Keys
      invariant forall n :: n in pending ==> r[n] == locks[n]
      invariant forall n :: n in locks && n !in pending ==>
        r[n] == locks[n].(fieldTypes := Some(KnownTypes(Get(contract, n, map[]), locks[n].fields)))
    {
      var n :| n in pending;
      r := r[n := locks[n].(fieldTypes := Some(KnownTypes(Get(contract, n, map[]), locks[n].fields)))];
      pending := pending - {n};
    }
  }

  method StampApiEntries(apis: map<string, ApiLock>, contracts: map<string, ApiDecl>) returns (r: map<string, ApiLock>)
    ensures ApiEntries(r) == StampApis(ApiEntries(apis), contracts)
  {
    hide ParamTypes, Elements, ApiEntries, StampApis;
    r := apis;
    var pending := contracts.Keys;
    while pending != {}
      invariant pending <= contracts.Keys && r.Keys == apis.Keys
      invariant forall n :: n in apis && (n in pending || n !in contracts) ==> r[n] == apis[n]
      invariant forall n :: n in apis && n in contracts && n !in pending ==>
        r[n] == apis[n].(contract := true, paramTypes := ParamTypes(contracts[n].params), returnType := contracts[n].returnType)
    {
      var n :| n in pending;
      if n in r {
        r := r[n := r[n].(contract := true, paramTypes := ParamTypes(contracts[n].params), returnType := contracts[n].returnType)];
      }
      pending := pending - {n};
    }
    StampedApis(r, apis, contracts);
  }

  lemma {:induction false} StampedApis(r: map<string, ApiLock>, apis: map<string, ApiLock>, contracts: map<string, ApiDecl>)
    requires r.Keys == apis.Keys
    requires forall n :: n in apis && n !in contracts ==> r[n] == apis[n]
    requires forall n :: n in apis && n in contracts ==>
      r[n] == apis[n].(contract := true, paramTypes := ParamTypes(contracts[n].params), returnType := contracts[n].returnType)
    ensures ApiEntries(r) == StampApis(ApiEntries(apis), contracts)
  {
    hide ParamTypes, Elements;
  }

  // ---------------------------------------------------------------- the object

  class LockFile {
    var models: map<string, ModelLock>
    var types: map<string, ModelLock>
    var events: map<string, ModelLock>
    var apis: map<string, ApiLock>
    var reservedApi: seq<nat>
    var nextApi: nat

    ghost function View(): Lock
      reads this
    {
      Lock(Entries(models), Entries(types), Entries(events), ApiEntries(apis), Elements(reservedApi), nextApi)
    }

    constructor ()
      ensures View() == NEW_LOCK
    {
      models, types, events, apis, reservedApi, nextApi := map[], map[], map[], map[], [], 0;
    }

    method UpdateModels(files: Schema)
      modifies this`models
      ensures View() == old(View()).(models := AssignAll(ReserveAll(old(View()).models, ModelContract(files)), Models(files)))
    {
      models := ReserveEntries(models, ModelContract(files));
      models := AssignEntries(models, Models(files));
    }

    method UpdateTypes(files: Schema)
      modifies this`types
      ensures View() == old(View()).(types := AssignAll(ReserveAll(old(View()).types, TypeContract(files)), Types(files)))
    {
      types := ReserveEntries(types, TypeContract(files));
      types := AssignEntries(types, Types(files));
    }

    method UpdateExtends(files: Schema)
      modifies this`models
      ensures View() == old(View()).(models := AssignAll(old(View()).models, Extensions(files)))
    {
      models := AssignEntries(models, Extensions(files));
    }

    method UpdateEvents(files: Schema)
      modifies this`events
      ensures View() == old(View()).(events := AssignAll(ReserveAll(old(View()).events, EventContract(files)), Events(files)))
    {
      events := ReserveEntries(events, EventContract(files));
      events := AssignEntries(events, Events(files));
    }

    method EnsureApiId(name: string, params: seq<string>)
      modifies this`apis, this`nextApi
      ensures View() == Ensure(old(View()), Endpoint(name, params, false))
    {
      hide EnsureParams;
      var al;
      if name in apis {
        al := apis[name];
      } else {
        nextApi := nextApi + 1;
        al := ApiLock(nextApi, map[], [], 0, false, map[], "");
        assert ApiEntry(al) == NewApi(nextApi);
      }
      ghost var before := apis;
      al := SyncParams(al, params);
      apis := apis[name := al];
      assert ApiEntries(apis) == ApiEntries(before)[name := ApiEntry(al)];
    }

    method ReserveRemovedApis(active: set<string>)
      modifies this`apis, this`reservedApi
      ensures View() == DropApis(old(View()), active)
    {
      hide Elements, Entries, NoDuplicates, OneNameEach;
      var ids := map n | n in apis :: apis[n].id;
      InactiveIds(apis, ids, active);
      ActiveEntries(apis, active);
      var live, reserved := ReserveRemoved(ids, reservedApi, active);
      apis, reservedApi := map n | n in apis && n in active :: apis[n], reserved;
    }

    method UpdateApis(files: Schema)
      modifies this`apis, this`nextApi, this`reservedApi
      ensures View() == LockModel.UpdateApis(old(View()), files)
    {
      hide Ensure, EndpointNames, DropApis, Registrations, Entries, ApiEntries, Elements;
      var regs := Registrations(files);
      assert EndpointNames(regs[..0]) == {} by { NoNamesYet(regs); }
      var active := {};
      for i := 0 to |regs|
        invariant View() == EnsureAll(old(View()), regs[..i])
        invariant active == EndpointNames(regs[..i])
      {
        assert regs[..i + 1][..i] == regs[..i];
        NextName(regs, i);
        SameEnsure(View(), regs[i]);
        active := active + {regs[i].name};
        EnsureApiId(regs[i].name, regs[i].params);
      }
      assert regs[..|regs|] == regs;
      ReserveRemovedApis(active);
    }

    method UpdateContractMetadata(files: Schema)
      modifies this`models, this`types, this`events, this`apis
      ensures View() == old(View()).(models := Stamp(old(View()).models, ModelContract(files)),
        types := Stamp(old(View()).types, TypeContract(files)), events := Stamp(old(View()).events, EventContract(files)),
        apis := StampApis(old(View()).apis, ApiContracts(files)))
    {
      models := StampEntries(models, ModelContract(files));
      types := StampEntries(types, TypeContract(files));
      events := StampEntries(events, EventContract(files));
      apis := StampApiEntries(apis, ApiContracts(files));
    }

    /** Synchronises the lock with a schema. */
    method Update(files: Schema)
      modifies this
      ensures View() == LockModel.Update(old(View()), files)
    {
      hide AssignAll, ReserveAll, LockModel.UpdateApis, Stamp, StampApis, ModelContract, TypeContract, EventContract, ApiContracts;
      UpdateModels(files);
      UpdateTypes(files);
      UpdateExtends(files);
      UpdateEvents(files);
      UpdateApis(files);
      UpdateContractMetadata(files);
    }

    method ComputeNextApi()
      modifies this`nextApi
      ensures View() == old(View()).(nextApi := MaxOf((set n | n in old(View()).apis :: old(View()).apis[n].id) + old(View()).reservedApis))
    {
      var ids := map n | n in apis :: apis[n].id;
      var m := MaxId(ids, reservedApi, 0);
      nextApi := m;
      ghost var s := (set n | n in View().apis :: View().apis[n].id) + View().reservedApis;
      assert {0} + IdsOf(ids) + Elements(reservedApi) == {0} + s;
      MaxWithZero(s);
    }

    /** Save followed by Load into the same object. */
    method SaveAndLoad()
      modifies this
      ensures View() == Reload(old(View()))
    {
      hide Entries, ForgetEmptyTypes, Elements;
      ghost var before := apis;
      models, types, events := Written(models), Written(types), Written(events);
      apis := ForgetCounters(apis);
      SameIdSet(ApiEntries(before), ApiEntries(apis));
      ComputeNextApi();
    }

    /** The check of a schema against the lock; the active endpoint names come from a scratch lock. */
    method CheckCompatibility(files: Schema) returns (changes: set<Change>)
      ensures changes == BreakingChanges(View(), files)
      ensures forall change :: change in changes <==> LockSilence.Reported(View(), files, change)
    {
      var m := CompareEntries("model", models, ModelContract(files), false);
      var t := CompareEntries("type", types, TypeContract(files), false);
      var e := CompareEntries("event", events, EventContract(files), true);
      var a := CompareApiLocks(files);
      changes := m + t + e + a;
      forall change ensures change in BreakingChanges(View(), files) <==> LockSilence.Reported(View(), files, change) {
        LockSilence.ReportedIff(View(), files, change);
      }
    }

    method CompareApiLocks(files: Schema) returns (changes: set<Change>)
      ensures changes == CompareApis(View(), files)
    {
      hide CompareApi;
      var scratch := new LockFile();
      scratch.UpdateApis(files);
      assert scratch.apis.Keys == ActiveApiNames(files);
      changes := CompareApiEntries(apis, scratch.apis.Keys, ApiContracts(files));
      assert forall n :: n in apis ==> View().apis[n] == ApiEntry(apis[n]);
    }
  }

  method CompareApiEntries(apis: map<string, ApiLock>, active: set<string>, contracts: map<string, ApiDecl>) returns (changes: set<Change>)
    ensures changes == set n, c | n in apis && c in CompareApi(n, ApiEntry(apis[n]), active, contracts) :: c
  {
    hide CompareApi;
    changes := {};
    var pending := apis.Keys;
    while pending != {}
      invariant pending <= apis.Keys
      invariant changes == set n, c | n in apis && n !in pending && c in CompareApi(n, ApiEntry(apis[n]), active, contracts) :: c
    {
      var n :| n in pending;
      changes := changes + CompareApi(n, ApiEntry(apis[n]), active, contracts);
      pending := pending - {n};
    }
  }

  lemma {:induction false} InactiveIds(apis: map<string, ApiLock>, ids: map<string, nat>, active: set<string>)
    requires ids == map n | n in apis :: apis[n].id
    ensures (set n | n in ids && n !in active :: ids[n]) == set n | n in ApiEntries(apis) && n !in active :: ApiEntries(apis)[n].id
  {
    hide Elements;
    var entries := ApiEntries(apis);
    forall n | n in apis && n !in active ensures ids[n] == entries[n].id {
    }
    var left, right := set n | n in ids && n !in active :: ids[n], set n | n in entries && n !in active :: entries[n].id;
    forall id | id in left ensures id in right {
      var n :| n in ids && n !in active && ids[n] == id;
      assert n in entries;
    }
    forall id | id in right ensures id in left {
      var n :| n in entries && n !in active && entries[n].id == id;
      assert n in ids;
    }
  }

  lemma {:induction false} ActiveEntries(apis: map<string, ApiLock>, active: set<string>)
    ensures ApiEntries(map n | n in apis && n in active :: apis[n]) == map n | n in ApiEntries(apis) && n in active :: ApiEntries(apis)[n]
  {
    hide Elements;
  }

  lemma {:induction false} SameIdSet(a: map<string, Api>, b: map<string, Api>)
    requires a.Keys == b.Keys && forall n :: n in a ==> a[n].id == b[n].id
    ensures (set n | n in a :: a[n].id) == set n | n in b :: b[n].id
  {
    IdsWithin(a, b);
    IdsWithin(b, a);
  }

  lemma {:induction false} IdsWithin(a: map<string, Api>, b: map<string, Api>)
    requires a.Keys == b.Keys && forall n :: n in a ==> a[n].id == b[n].id
    ensures (set n | n in a :: a[n].id) <= set n | n in b :: b[n].id
  {
    var ids := set n | n in b :: b[n].id;
    assert forall n :: n in b ==> b[n].id in ids;
  }

  lemma {:induction false} NoNamesYet(regs: seq<Endpoint>)
    ensures EndpointNames(regs[..0]) == {}
  {
  }

  lemma {:induction false} SameEnsure(l: Lock, e: Endpoint)
    ensures Ensure(l, e) == Ensure(l, Endpoint(e.name, e.params, false))
  {
    hide EnsureParams;
  }

  lemma {:induction false} NextName(regs: seq<Endpoint>, i: nat)
    requires i < |regs|
    ensures EndpointNames(regs[..i + 1]) == EndpointNames(regs[..i]) + {regs[i].name}
  {
    forall n | n in EndpointNames(regs[..i]) ensures n in EndpointNames(regs[..i + 1]) {
      var j :| 0 <= j < i && regs[..i][j].name == n;
      assert regs[..i + 1][j].name == n;
    }
    assert regs[..i + 1][i].name == regs[i].name;
    forall n | n in EndpointNames(regs[..i + 1]) ensures n in EndpointNames(regs[..i]) + {regs[i].name} {
      var j :| 0 <= j < i + 1 && regs[..i + 1][j].name == n;
      assert j < i ==> regs[..i][j].name == n;
    }
  }

  lemma {:induction false} MaxWithZero(s: set<nat>)
    ensures MaxOf({0} + s) == MaxOf(s)
  {
  }

  /** What is left of the entries after writing and reading them: empty field types are not written. */
  function Written(locks: map<string, ModelLock>): (r: map<string, ModelLock>)
    ensures Entries(r) == ForgetEmptyTypes(Entries(locks))
  {
    map n | n in locks :: if locks[n].fieldTypes == Some(map[]) then locks[n].(fieldTypes := None) else locks[n]
  }

  /** The parameter counters are not written. */
  function ForgetCounters(apis: map<string, ApiLock>): (r: map<string, ApiLock>)
    ensures ApiEntries(r) == map n | n in ApiEntries(apis) :: ApiEntries(apis)[n].(nextP := 0)
  {
    map n | n in apis :: apis[n].(nextP := 0)
  }

  method CompareEntries(kind: string, locks: map<string, ModelLock>, contract: map<string, map<string, string>>, reject: bool) returns (changes: set<Change>)
    ensures changes == CompareFields(kind, Entries(locks), contract, reject)
  {
    hide CompareEntity;
    changes := {};
    var pending := locks.Keys;
    while pending != {}
      invariant pending <= locks.Keys
      invariant changes == set n, c | n in locks && n !in pending &&
        c in CompareEntity(kind, n, Entry(locks[n]), Get(contract, n, map[]), reject) :: c
    {
      var n :| n in pending;
      changes := changes + CompareEntity(kind, n, Entry(locks[n]), Get(contract, n, map[]), reject);
      pending := pending - {n};
    }
    assert forall n :: n in locks ==> Entries(locks)[n] == Entry(locks[n]);
  }
}
