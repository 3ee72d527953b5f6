/**
 One kind of entity through an update and the compatibility check: the contract's fields are those
 the update assigns, what nothing is reported about keeps its IDs, and what has just been updated has
 nothing to report.
 */
module LockCompat {
  import opened Wrappers
  import opened LockModel
  import opened LockHistory

  // ---------------------------------------------------------------- what update does to a field map

  /** The field names declared for entity `n`. */
  function NamesFor(groups: seq<Group>, n: string): set<string> {
    if groups == [] then {}
    else
      var front, last := groups[..|groups| - 1], groups[|groups| - 1];
      NamesFor(front, n) + (if last.name == n then FieldNames(last.fields) else {})
  }

  function GroupNames(groups: seq<Group>): set<string> {
    if groups == [] then {} else GroupNames(groups[..|groups| - 1]) + {groups[|groups| - 1].name}
  }

  /** `e'` has the fields of `e` with their IDs, and the same reserved IDs. */
  ghost predicate Retains(e: Entity, e': Entity) {
    && e'.reserved == e.reserved
    && forall f :: f in e.fields ==> f in e'.fields && e'.fields[f] == e.fields[f]
  }

  lemma {:induction false} AssignAllFields(locks: map<string, Entity>, groups: seq<Group>, n: string)
    requires MapInv(locks)
    ensures var locks' := AssignAll(locks, groups);
      && locks'.Keys == locks.Keys + GroupNames(groups)
      && (n in locks' ==>
        && locks'[n].fields.Keys == Get(locks, n, NEW_ENTITY).fields.Keys + NamesFor(groups, n)
        && Retains(Get(locks, n, NEW_ENTITY), locks'[n]))
      && (n !in locks' ==> NamesFor(groups, n) == {})
    decreases |groups|
  {
    hide MapInv, EntityInv, Assign, FieldNames, Evolves;
    if groups != [] {
      var front, last := groups[..|groups| - 1], groups[|groups| - 1];
      AssignAllFields(locks, front, n);
      AssignAllKeeps(locks, front);
      var rest := AssignAll(locks, front);
      NewEntityInv();
      assert EntityInv(Get(rest, last.name, NEW_ENTITY)) by { InvAt(rest, last.name); }
      AssignKeeps(Get(rest, last.name, NEW_ENTITY), last.fields);
    }
  }

  lemma {:induction false} InvAt(locks: map<string, Entity>, n: string)
    requires MapInv(locks)
    ensures EntityInv(Get(locks, n, NEW_ENTITY))
  {
    NewEntityInv();
  }

  lemma {:induction false} TypesOfNames(fields: seq<FieldDecl>)
    ensures TypesOf(fields).Keys == FieldNames(fields)
    decreases |fields|
  {
    if fields != [] {
      TypesOfNames(fields[..|fields| - 1]);
      LastName(fields);
    }
  }

  /** The contract's fields of an entity are the ones declared for it. */
  lemma {:induction false} MergedNames(groups: seq<Group>, n: string)
    ensures Merged(groups).Keys == GroupNames(groups)
    ensures Get(Merged(groups), n, map[]).Keys == NamesFor(groups, n)
    decreases |groups|
  {
    if groups != [] {
      var front, last := groups[..|groups| - 1], groups[|groups| - 1];
      MergedNames(front, n);
      TypesOfNames(last.fields);
      var rest := Merged(front);
      assert last.name == n ==> (Get(rest, n, map[]) + TypesOf(last.fields)).Keys == Get(rest, n, map[]).Keys + FieldNames(last.fields);
    }
  }

  /** The last declaration of a name has every field declared under that name. */
  ghost predicate LastDeclaresAll(groups: seq<Group>) {
    forall i :: 0 <= i < |groups| ==> FieldNames(groups[i].fields) <= Get(Latest(groups), groups[i].name, map[]).Keys
  }

  lemma {:induction false} LatestWithin(groups: seq<Group>, n: string)
    ensures Latest(groups).Keys == GroupNames(groups)
    ensures Get(Latest(groups), n, map[]).Keys <= NamesFor(groups, n)
    decreases |groups|
  {
    if groups != [] {
      var front, last := groups[..|groups| - 1], groups[|groups| - 1];
      LatestWithin(front, n);
      TypesOfNames(last.fields);
    }
  }

  lemma {:induction false} GroupAmong(groups: seq<Group>, i: nat)
    requires i < |groups|
    ensures groups[i].name in GroupNames(groups) && FieldNames(groups[i].fields) <= NamesFor(groups, groups[i].name)
    decreases |groups|
  {
    hide FieldNames;
    if i < |groups| - 1 {
      GroupAmong(groups[..|groups| - 1], i);
    }
  }

  lemma {:induction false} NamesForBound(groups: seq<Group>, n: string, names: set<string>)
    requires forall i :: 0 <= i < |groups| && groups[i].name == n ==> FieldNames(groups[i].fields) <= names
    ensures NamesFor(groups, n) <= names
    decreases |groups|
  {
    hide FieldNames;
    if groups != [] {
      NamesForBound(groups[..|groups| - 1], n, names);
    }
  }

  /** Then the contract, which has only the last declaration, has the fields of all of them. */
  lemma {:induction false} LatestNames(groups: seq<Group>, n: string)
    requires LastDeclaresAll(groups)
    ensures Latest(groups).Keys == GroupNames(groups)
    ensures Get(Latest(groups), n, map[]).Keys == NamesFor(groups, n)
  {
    hide Latest, FieldNames, NamesFor, GroupNames;
    LatestWithin(groups, n);
    NamesForBound(groups, n, Get(Latest(groups), n, map[]).Keys);
  }

  predicate UniqueGroups(groups: seq<Group>) {
    forall i, j :: 0 <= i < j < |groups| ==> groups[i].name != groups[j].name
  }

  /** Unique names are enough. */
  lemma {:induction false} UniqueDeclareAll(groups: seq<Group>)
    requires UniqueGroups(groups)
    ensures LastDeclaresAll(groups)
    decreases |groups|
  {
    hide FieldNames, TypesOf;
    if groups != [] {
      var front, last := groups[..|groups| - 1], groups[|groups| - 1];
      UniqueDeclareAll(front);
      TypesOfNames(last.fields);
      forall i | 0 <= i < |groups|
        ensures FieldNames(groups[i].fields) <= Get(Latest(groups), groups[i].name, map[]).Keys
      {
        assert i < |front| ==> groups[i] == front[i] && groups[i].name != last.name;
      }
    }
  }

  lemma {:induction false} NamesForConcat(a: seq<Group>, b: seq<Group>, n: string)
    ensures NamesFor(a + b, n) == NamesFor(a, n) + NamesFor(b, n)
    ensures GroupNames(a + b) == GroupNames(a) + GroupNames(b)
    decreases |b|
  {
    if b == [] {
      assert a + b == a;
    } else {
      assert (a + b)[..|a + b| - 1] == a + b[..|b| - 1];
      NamesForConcat(a, b[..|b| - 1], n);
    }
  }

  /** Merging file by file declares the same fields as all models followed by all extends. */
  lemma {:induction false} MergeOrder(files: Schema, n: string)
    ensures NamesFor(ModelsAndExtensions(files), n) == NamesFor(Models(files), n) + NamesFor(Extensions(files), n)
    ensures GroupNames(ModelsAndExtensions(files)) == GroupNames(Models(files)) + GroupNames(Extensions(files))
  {
    if files != [] {
      var f, rest := files[0], files[1..];
      MergeOrder(rest, n);
      NamesForConcat(f.models, Models(rest), n);
      NamesForConcat(f.extensions, Extensions(rest), n);
      NamesForConcat(f.models, f.extensions, n);
      NamesForConcat(f.models + f.extensions, ModelsAndExtensions(rest), n);
    }
  }

  // ---------------------------------------------------------------- entities after an update

  /** `contract` declares exactly the groups that are assigned. */
  ghost predicate Declares(contract: map<string, map<string, string>>, groups: seq<Group>, more: seq<Group>) {
    && contract.Keys == GroupNames(groups) + GroupNames(more)
    && forall n {:trigger Get(contract, n, map[])} {:trigger NamesFor(groups, n)} ::
      Get(contract, n, map[]).Keys == NamesFor(groups, n) + NamesFor(more, n)
  }

  ghost function UpdateEntities(locks: map<string, Entity>, contract: map<string, map<string, string>>, groups: seq<Group>, more: seq<Group>): map<string, Entity> {
    Stamp(AssignAll(AssignAll(ReserveAll(locks, contract), groups), more), contract)
  }

  /** The locked fields are the contract's, with the contract's types. */
  ghost predicate Synced(e: Entity, c: map<string, string>) { e.fields.Keys == c.Keys && e.types == Some(c) }

  ghost predicate AllSynced(locks: map<string, Entity>, contract: map<string, map<string, string>>) {
    contract.Keys <= locks.Keys && forall n :: n in locks ==> Synced(locks[n], Get(contract, n, map[]))
  }

  lemma {:induction false} UpdateEntity(locks: map<string, Entity>, contract: map<string, map<string, string>>, groups: seq<Group>, more: seq<Group>, n: string)
    requires MapInv(locks)
    ensures var locks' := UpdateEntities(locks, contract, groups, more);
      && locks'.Keys == locks.Keys + GroupNames(groups) + GroupNames(more)
      && (n in locks' ==>
        && locks'[n].fields.Keys ==
             (Get(locks, n, NEW_ENTITY).fields.Keys * Get(contract, n, map[]).Keys) + NamesFor(groups, n) + NamesFor(more, n)
        && Retains(ReserveMissing(Get(locks, n, NEW_ENTITY), Get(contract, n, map[]).Keys), locks'[n]))
  {
    hide MapInv, EntityInv, MapEvolves, AssignAll, ReserveAll, ReserveMissing, NamesFor, GroupNames;
    var a := ReserveAll(locks, contract);
    var b := AssignAll(a, groups);
    var c := AssignAll(b, more);
    ReserveAllKeeps(locks, contract);
    AssignAllKeeps(a, groups);
    ReserveAllAt(locks, contract, n);
    AssignAllFields(a, groups, n);
    AssignAllFields(b, more, n);
    StampSameIds(c, contract);
    RetainsTransitive(Get(a, n, NEW_ENTITY), Get(b, n, NEW_ENTITY), Get(c, n, NEW_ENTITY));
  }

  lemma {:induction false} ReserveAllAt(locks: map<string, Entity>, contract: map<string, map<string, string>>, n: string)
    ensures ReserveAll(locks, contract).Keys == locks.Keys
    ensures Get(ReserveAll(locks, contract), n, NEW_ENTITY) ==
      ReserveMissing(Get(locks, n, NEW_ENTITY), Get(contract, n, map[]).Keys)
    ensures Get(ReserveAll(locks, contract), n, NEW_ENTITY).fields.Keys ==
      Get(locks, n, NEW_ENTITY).fields.Keys * Get(contract, n, map[]).Keys
  {
    assert ReserveMissing(NEW_ENTITY, Get(contract, n, map[]).Keys) == NEW_ENTITY;
  }

  lemma {:induction false} RetainsTransitive(a: Entity, b: Entity, c: Entity)
    ensures Retains(a, a)
    ensures Retains(a, b) && Retains(b, c) ==> Retains(a, c)
  {
  }

  lemma {:induction false} UpdateSyncs(locks: map<string, Entity>, contract: map<string, map<string, string>>, groups: seq<Group>, more: seq<Group>)
    requires MapInv(locks) && Declares(contract, groups, more)
    ensures AllSynced(UpdateEntities(locks, contract, groups, more), contract)
  {
    hide MapInv, ReserveMissing, AssignAll, ReserveAll, Retains, NamesFor, GroupNames, KnownTypes;
    var locks' := UpdateEntities(locks, contract, groups, more);
    UpdateEntity(locks, contract, groups, more, "");
    forall n | n in locks' ensures Synced(locks'[n], Get(contract, n, map[])) {
      UpdateEntity(locks, contract, groups, more, n);
      var c := Get(contract, n, map[]);
      assert locks'[n].fields.Keys == c.Keys;
      AllKnown(c, locks'[n].fields);
    }
  }

  lemma {:induction false} AllKnown(c: map<string, string>, fields: map<string, nat>)
    requires fields.Keys == c.Keys
    ensures KnownTypes(c, fields) == c
  {
  }

  /** Nothing to do for entities that are already in step with the contract. */
  lemma {:induction false} SyncedIsFixed(locks: map<string, Entity>, contract: map<string, map<string, string>>, groups: seq<Group>, more: seq<Group>)
    requires MapInv(locks) && Declares(contract, groups, more) && AllSynced(locks, contract)
    ensures UpdateEntities(locks, contract, groups, more) == locks
  {
    hide MapInv, EntityInv, AssignAll, NamesFor, GroupNames, ReserveAll, Stamp;
    NothingReserved(locks, contract);
    assert GroupNames(groups) <= locks.Keys && GroupNames(more) <= locks.Keys;
    forall n | n in locks ensures NamesFor(groups, n) <= locks[n].fields.Keys && NamesFor(more, n) <= locks[n].fields.Keys {
      assert Get(contract, n, map[]).Keys == NamesFor(groups, n) + NamesFor(more, n);
    }
    NothingNew(locks, groups);
    NothingNew(locks, more);
    NothingStamped(locks, contract);
  }

  lemma {:induction false} NothingReserved(locks: map<string, Entity>, contract: map<string, map<string, string>>)
    requires AllSynced(locks, contract)
    ensures ReserveAll(locks, contract) == locks
  {
    hide ReserveMissing, Get;
    forall n | n in locks ensures ReserveMissing(locks[n], Get(contract, n, map[]).Keys) == locks[n] {
      assert Synced(locks[n], Get(contract, n, map[]));
      NothingMissing(locks[n], Get(contract, n, map[]).Keys);
    }
  }

  lemma {:induction false} NothingStamped(locks: map<string, Entity>, contract: map<string, map<string, string>>)
    requires AllSynced(locks, contract)
    ensures Stamp(locks, contract) == locks
  {
    hide KnownTypes, Get;
    forall n | n in locks ensures KnownTypes(Get(contract, n, map[]), locks[n].fields) == Get(contract, n, map[]) {
      assert Synced(locks[n], Get(contract, n, map[]));
      AllKnown(Get(contract, n, map[]), locks[n].fields);
    }
  }

  lemma {:induction false} NothingNew(locks: map<string, Entity>, groups: seq<Group>)
    requires GroupNames(groups) <= locks.Keys
    requires forall n :: n in locks ==> NamesFor(groups, n) <= locks[n].fields.Keys
    ensures AssignAll(locks, groups) == locks
    decreases |groups|
  {
    if groups != [] {
      var front, last := groups[..|groups| - 1], groups[|groups| - 1];
      forall n | n in locks ensures NamesFor(front, n) <= locks[n].fields.Keys {
        assert NamesFor(front, n) <= NamesFor(groups, n);
      }
      NothingNew(locks, front);
      assert FieldNames(last.fields) <= NamesFor(groups, last.name);
      NothingToName(locks[last.name], last.fields);
    }
  }

  lemma {:induction false} NothingToName(e: Entity, fields: seq<FieldDecl>)
    requires FieldNames(fields) <= e.fields.Keys
    ensures Assign(e, fields) == e
    decreases |fields|
  {
    if fields != [] {
      LastName(fields);
      NothingToName(e, fields[..|fields| - 1]);
    }
  }

  // ---------------------------------------------------------------- compatible entities

  lemma {:induction false} NoChangeMeansDeclared(kind: string, locks: map<string, Entity>, contract: map<string, map<string, string>>, reject: bool, n: string)
    requires CompareFields(kind, locks, contract, reject) == {} && n in locks
    ensures locks[n].fields.Keys <= Get(contract, n, map[]).Keys
  {
    var e, c := locks[n], Get(contract, n, map[]);
    forall f | f in e.fields ensures f in c {
      var change := Change(FieldPath(kind, n, f), ContractLabel(PreviousType(e, f), e.fields[f]), Absent);
      assert f !in c ==> change in RemovedFields(kind, n, e, c);
      assert change in CompareEntity(kind, n, e, c, reject) ==> change in CompareFields(kind, locks, contract, reject);
    }
  }

  ghost predicate MapRetains(locks: map<string, Entity>, locks': map<string, Entity>) {
    forall n :: n in locks ==> n in locks' && Retains(locks[n], locks'[n])
  }

  /** Entities without a breaking change keep every field ID and reserve none. */
  lemma {:induction false} CompatibleEntities(kind: string, locks: map<string, Entity>, contract: map<string, map<string, string>>, reject: bool, groups: seq<Group>, more: seq<Group>)
    requires MapInv(locks) && CompareFields(kind, locks, contract, reject) == {}
    ensures MapRetains(locks, UpdateEntities(locks, contract, groups, more))
  {
    hide MapInv, AssignAll, CompareFields, UpdateEntities;
    forall n | n in locks
      ensures n in UpdateEntities(locks, contract, groups, more)
      ensures Retains(locks[n], UpdateEntities(locks, contract, groups, more)[n])
    {
      UpdateEntity(locks, contract, groups, more, n);
      NoChangeMeansDeclared(kind, locks, contract, reject, n);
      NothingMissing(locks[n], Get(contract, n, map[]).Keys);
    }
  }

  lemma {:induction false} NothingMissing(e: Entity, current: set<string>)
    requires e.fields.Keys <= current
    ensures ReserveMissing(e, current) == e
  {
    assert (map f | f in e.fields && f in current :: e.fields[f]) == e.fields;
    assert (set f | f in e.fields && f !in current :: e.fields[f]) == {};
  }

  lemma {:induction false} SyncedIsCompatible(kind: string, locks: map<string, Entity>, contract: map<string, map<string, string>>, reject: bool)
    requires AllSynced(locks, contract)
    ensures CompareFields(kind, locks, contract, reject) == {}
  {
    forall n | n in locks ensures CompareEntity(kind, n, locks[n], Get(contract, n, map[]), reject) == {} {
      assert Synced(locks[n], Get(contract, n, map[]));
    }
  }

  // ---------------------------------------------------------------- names declared twice

  /** Nothing is reported after the update only if the last declarations have all fields. */
  lemma {:induction false} CompatibleOnlyIfComplete(kind: string, locks: map<string, Entity>, groups: seq<Group>, reject: bool)
    requires MapInv(locks)
    requires CompareFields(kind, UpdateEntities(locks, Latest(groups), groups, []), Latest(groups), reject) == {}
    ensures LastDeclaresAll(groups)
  {
    hide MapInv, CompareFields, UpdateEntities, Latest, FieldNames, NamesFor, GroupNames;
    forall i | 0 <= i < |groups|
      ensures FieldNames(groups[i].fields) <= Get(Latest(groups), groups[i].name, map[]).Keys
    {
      GroupAmong(groups, i);
      UpdateEntity(locks, Latest(groups), groups, [], groups[i].name);
      NoChangeMeansDeclared(kind, UpdateEntities(locks, Latest(groups), groups, []), Latest(groups), reject, groups[i].name);
    }
  }

  /** Otherwise the next update takes a field's ID away, and the field gets another one. */
  lemma {:induction false} IncompleteChanges(locks: map<string, Entity>, groups: seq<Group>)
    requires MapInv(locks) && MapInv(UpdateEntities(locks, Latest(groups), groups, [])) && !LastDeclaresAll(groups)
    ensures var u := UpdateEntities(locks, Latest(groups), groups, []);
      UpdateEntities(u, Latest(groups), groups, []) != u
  {
    hide UpdateEntities, Latest, FieldNames, NamesFor, GroupNames;
    var u := UpdateEntities(locks, Latest(groups), groups, []);
    var i :| 0 <= i < |groups| && !(FieldNames(groups[i].fields) <= Get(Latest(groups), groups[i].name, map[]).Keys);
    var n := groups[i].name;
    var f :| f in FieldNames(groups[i].fields) && f !in Get(Latest(groups), n, map[]).Keys;
    GroupAmong(groups, i);
    UpdateEntity(locks, Latest(groups), groups, [], n);
    assert EntityInv(u[n]) && f in u[n].fields;
    hide MapInv;
    UpdateEntity(u, Latest(groups), groups, [], n) by { assert MapInv(u); }
    assert u[n].fields[f] in ReserveMissing(u[n], Get(Latest(groups), n, map[]).Keys).reserved;
  }
}
