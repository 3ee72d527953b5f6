/**
 What the compatibility check reports, told over the lock and the declarations of the schema: exactly
 these changes and no others, and hence exactly when it is silent.
 */
module LockSilence {
  import opened Wrappers
  import opened LockModel
  import opened LockHistory
  import opened LockCompat
  import opened LockGuarantees
  import opened LockEndpoints

  // ---------------------------------------------------------------- what a schema declares

  /** The last field of this name has this type. */
  predicate LastTyped(fields: seq<FieldDecl>, f: string, t: string) {
    exists j :: 0 <= j < |fields| && fields[j] == FieldDecl(f, t) && forall k :: j < k < |fields| ==> fields[k].name != f
  }

  predicate Mentions(fields: seq<FieldDecl>, f: string) { exists k :: 0 <= k < |fields| && fields[k].name == f }

  /** Declarations of one name add up: the last one that has the field says its type. */
  predicate MergedType(groups: seq<Group>, n: string, f: string, t: string) {
    exists g :: 0 <= g < |groups| && groups[g].name == n && LastTyped(groups[g].fields, f, t) &&
      forall h :: g < h < |groups| && groups[h].name == n ==> !Mentions(groups[h].fields, f)
  }

  /** The last declaration of a name is the one that counts. */
  predicate LatestType(groups: seq<Group>, n: string, f: string, t: string) {
    exists g :: 0 <= g < |groups| && groups[g].name == n && LastTyped(groups[g].fields, f, t) &&
      forall h :: g < h < |groups| ==> groups[h].name != n
  }

  /** The schema declares the field with this type: of a model, its models and extends taken file by file. */
  predicate DeclaresField(files: Schema, kind: string, n: string, f: string, t: string) {
    || (kind == "model" && MergedType(Collected(files, (file: File) => file.models + file.extensions), n, f, t))
    || (kind == "type" && LatestType(Collected(files, (file: File) => file.types), n, f, t))
    || (kind == "event" && LatestType(Collected(files, (file: File) => file.events), n, f, t))
  }

  function Prefixed(apis: seq<ApiDecl>, prefix: string): seq<(string, ApiDecl)> {
    seq(|apis|, k requires 0 <= k < |apis| => (prefix + apis[k].name, apis[k]))
  }

  predicate LastNamed(decls: seq<(string, ApiDecl)>, n: string, c: ApiDecl) {
    exists g :: 0 <= g < |decls| && decls[g] == (n, c) && forall h :: g < h < |decls| ==> decls[h].0 != n
  }

  /** The contract of an endpoint: its last declaration, file by file, APIs before services. */
  predicate DeclaresContract(files: Schema, n: string, c: ApiDecl) {
    LastNamed(Collected(files, (file: File) => Prefixed(file.apis, "") + Prefixed(file.services, "svc:")), n, c)
  }

  predicate LastParam(params: seq<Param>, p: string, q: Param) {
    exists j :: 0 <= j < |params| && params[j] == q && q.name == p && forall k :: j < k < |params| ==> params[k].name != p
  }

  // ---------------------------------------------------------------- the contracts are what is declared

  lemma {:induction false} TypesOfDeclared(fields: seq<FieldDecl>, f: string, t: string)
    ensures f in TypesOf(fields) && TypesOf(fields)[f] == t <==> LastTyped(fields, f, t)
    ensures f in TypesOf(fields) <==> Mentions(fields, f)
    decreases |fields|
  {
    if fields != [] {
      var front, last := fields[..|fields| - 1], fields[|fields| - 1];
      TypesOfDeclared(front, f, t);
      if last.name == f {
        assert fields[|fields| - 1].name == f;
        if last.typeName == t {
          assert fields[|fields| - 1] == FieldDecl(f, t);
        }
      } else {
        if j :| 0 <= j < |front| && front[j] == FieldDecl(f, t) && forall k :: j < k < |front| ==> front[k].name != f {
          assert fields[j] == FieldDecl(f, t) && forall k :: j < k < |fields| ==> fields[k].name != f;
        }
        if j :| 0 <= j < |fields| && fields[j] == FieldDecl(f, t) && forall k :: j < k < |fields| ==> fields[k].name != f {
          assert front[j] == FieldDecl(f, t);
        }
        if k :| 0 <= k < |front| && front[k].name == f {
          assert fields[k].name == f;
        }
        if k :| 0 <= k < |fields| && fields[k].name == f {
          assert front[k].name == f;
        }
      }
    }
  }

  lemma {:induction false} MergedLast(front: seq<Group>, last: Group, n: string, f: string, t: string)
    ensures MergedType(front + [last], n, f, t) <==>
      if last.name == n && Mentions(last.fields, f) then LastTyped(last.fields, f, t) else MergedType(front, n, f, t)
  {
    hide LastTyped, Mentions;
    var groups := front + [last];
    if MergedType(groups, n, f, t) {
      var g :| 0 <= g < |groups| && groups[g].name == n && LastTyped(groups[g].fields, f, t) &&
        forall h :: g < h < |groups| && groups[h].name == n ==> !Mentions(groups[h].fields, f);
      if g < |front| {
        assert groups[|front|] == last;
        assert front[g].name == n && forall h :: g < h < |front| && front[h].name == n ==> front[h] == groups[h] && !Mentions(front[h].fields, f);
      } else {
        LastTypedMentions(last.fields, f, t);
      }
    }
    if last.name == n && LastTyped(last.fields, f, t) {
      assert groups[|front|].name == n && LastTyped(groups[|front|].fields, f, t);
    }
    if !(last.name == n && Mentions(last.fields, f)) && MergedType(front, n, f, t) {
      var g :| 0 <= g < |front| && front[g].name == n && LastTyped(front[g].fields, f, t) &&
        forall h :: g < h < |front| && front[h].name == n ==> !Mentions(front[h].fields, f);
      assert groups[g].name == n && LastTyped(groups[g].fields, f, t);
      forall h | g < h < |groups| && groups[h].name == n ensures !Mentions(groups[h].fields, f) {
        assert h < |front| ==> groups[h] == front[h];
      }
    }
  }

  lemma {:induction false} LastTypedMentions(fields: seq<FieldDecl>, f: string, t: string)
    requires LastTyped(fields, f, t)
    ensures Mentions(fields, f)
  {
    var j :| 0 <= j < |fields| && fields[j] == FieldDecl(f, t);
    assert fields[j].name == f;
  }

  lemma {:induction false} MergedDeclared(groups: seq<Group>, n: string, f: string, t: string)
    ensures var c := Get(Merged(groups), n, map[]); f in c && c[f] == t <==> MergedType(groups, n, f, t)
    decreases |groups|
  {
    hide LastTyped, Mentions, TypesOf;
    if groups == [] {
      assert !MergedType([], n, f, t);
    } else {
      hide MergedType;
      var front, last := groups[..|groups| - 1], groups[|groups| - 1];
      assert groups == front + [last];
      MergedDeclared(front, n, f, t);
      MergedLast(front, last, n, f, t);
      TypesOfDeclared(last.fields, f, t);
    }
  }

  lemma {:induction false} LatestLast(front: seq<Group>, last: Group, n: string, f: string, t: string)
    ensures LatestType(front + [last], n, f, t) <==>
      if last.name == n then LastTyped(last.fields, f, t) else LatestType(front, n, f, t)
  {
    hide LastTyped;
    var groups := front + [last];
    assert groups[|front|] == last;
    if g :| 0 <= g < |groups| && groups[g].name == n && LastTyped(groups[g].fields, f, t) && forall h :: g < h < |groups| ==> groups[h].name != n {
      assert g < |front| ==> front[g] == groups[g] && forall h :: g < h < |front| ==> front[h] == groups[h];
    }
    if g :| 0 <= g < |front| && front[g].name == n && LastTyped(front[g].fields, f, t) && forall h :: g < h < |front| ==> front[h].name != n {
      assert groups[g] == front[g] && forall h :: g < h < |front| ==> front[h] == groups[h];
    }
  }

  lemma {:induction false} LatestDeclared(groups: seq<Group>, n: string, f: string, t: string)
    ensures var c := Get(Latest(groups), n, map[]); f in c && c[f] == t <==> LatestType(groups, n, f, t)
    decreases |groups|
  {
    hide LastTyped, TypesOf;
    if groups == [] {
      assert !LatestType([], n, f, t);
    } else {
      hide LatestType;
      var front, last := groups[..|groups| - 1], groups[|groups| - 1];
      assert groups == front + [last];
      LatestDeclared(front, n, f, t);
      LatestLast(front, last, n, f, t);
      TypesOfDeclared(last.fields, f, t);
    }
  }

  lemma {:induction false} GroupsCollected(files: Schema)
    ensures Models(files) == Collected(files, (file: File) => file.models)
    ensures Extensions(files) == Collected(files, (file: File) => file.extensions)
    ensures ModelsAndExtensions(files) == Collected(files, (file: File) => file.models + file.extensions)
    ensures Types(files) == Collected(files, (file: File) => file.types)
    ensures Events(files) == Collected(files, (file: File) => file.events)
  {
    if files != [] {
      GroupsCollected(files[1..]);
    }
  }

  /** The contract collected for a kind of entity. */
  function ContractOf(files: Schema, kind: string): map<string, map<string, string>> {
    if kind == "model" then ModelContract(files) else if kind == "type" then TypeContract(files) else if kind == "event" then EventContract(files) else map[]
  }

  lemma {:induction false} ContractDeclares(files: Schema, kind: string, n: string, f: string, t: string)
    ensures var c := Get(ContractOf(files, kind), n, map[]); f in c && c[f] == t <==> DeclaresField(files, kind, n, f, t)
  {
    hide Merged, Latest, MergedType, LatestType, Collected;
    GroupsCollected(files);
    MergedDeclared(ModelsAndExtensions(files), n, f, t);
    LatestDeclared(Types(files), n, f, t);
    LatestDeclared(Events(files), n, f, t);
  }

  // ---------------------------------------------------------------- declared endpoints

  function Entered(m: map<string, ApiDecl>, decls: seq<(string, ApiDecl)>): map<string, ApiDecl>
    decreases |decls|
  {
    if decls == [] then m else Entered(m, decls[..|decls| - 1])[decls[|decls| - 1].0 := decls[|decls| - 1].1]
  }

  lemma {:induction false} EnteredConcat(m: map<string, ApiDecl>, a: seq<(string, ApiDecl)>, b: seq<(string, ApiDecl)>)
    ensures Entered(m, a + b) == Entered(Entered(m, a), b)
    decreases |b|
  {
    if b == [] {
      assert a + b == a;
    } else {
      assert (a + b)[..|a + b| - 1] == a + b[..|b| - 1];
      EnteredConcat(m, a, b[..|b| - 1]);
    }
  }

  lemma {:induction false} AddContractsEnters(m: map<string, ApiDecl>, apis: seq<ApiDecl>, prefix: string)
    ensures AddContracts(m, apis, prefix) == Entered(m, Prefixed(apis, prefix))
    decreases |apis|
  {
    if apis != [] {
      AddContractsEnters(m, apis[..|apis| - 1], prefix);
      assert Prefixed(apis, prefix)[..|apis| - 1] == Prefixed(apis[..|apis| - 1], prefix);
    }
  }

  lemma {:induction false} CollectedConcat<T>(a: Schema, b: Schema, part: File -> seq<T>)
    ensures Collected(a + b, part) == Collected(a, part) + Collected(b, part)
    decreases |a|
  {
    if a == [] {
      assert a + b == b;
    } else {
      CollectedConcat(a[1..], b, part);
      assert (a + b)[1..] == a[1..] + b && (a + b)[0] == a[0];
      hide Collected;
      assert part(a[0]) + (Collected(a[1..], part) + Collected(b, part)) == (part(a[0]) + Collected(a[1..], part)) + Collected(b, part);
    }
  }

  lemma {:induction false} CollectedOne<T>(file: File, part: File -> seq<T>)
    ensures Collected([file], part) == part(file)
  {
    assert Collected([file][1..], part) == [];
  }

  lemma {:induction false} CollectedLast<T>(files: Schema, part: File -> seq<T>)
    requires files != []
    ensures Collected(files, part) == Collected(files[..|files| - 1], part) + part(files[|files| - 1])
  {
    hide Collected;
    var front, last := files[..|files| - 1], files[|files| - 1];
    assert files == front + [last];
    CollectedConcat(front, [last], part);
    CollectedOne(last, part);
  }

  lemma {:induction false} ContractsEntered(files: Schema)
    ensures ApiContracts(files) == Entered(map[], Collected(files, (file: File) => Prefixed(file.apis, "") + Prefixed(file.services, "svc:")))
    decreases |files|
  {
    hide Prefixed;
    var part := (file: File) => Prefixed(file.apis, "") + Prefixed(file.services, "svc:");
    if files != [] {
      var front, last := files[..|files| - 1], files[|files| - 1];
      ContractsEntered(front);
      hide Entered, AddContracts;
      var before := Collected(front, part);
      CollectedLast(files, part);
      AddContractsEnters(ApiContracts(front), last.apis, "");
      AddContractsEnters(AddContracts(ApiContracts(front), last.apis, ""), last.services, "svc:");
      EnteredConcat(map[], before, Prefixed(last.apis, ""));
      EnteredConcat(map[], before + Prefixed(last.apis, ""), Prefixed(last.services, "svc:"));
      assert before + (Prefixed(last.apis, "") + Prefixed(last.services, "svc:")) == before + Prefixed(last.apis, "") + Prefixed(last.services, "svc:");
    }
  }

  lemma {:induction false} EnteredLast(decls: seq<(string, ApiDecl)>, n: string, c: ApiDecl)
    ensures var m := Entered(map[], decls); n in m && m[n] == c <==> LastNamed(decls, n, c)
    decreases |decls|
  {
    if decls != [] {
      var front, last := decls[..|decls| - 1], decls[|decls| - 1];
      EnteredLast(front, n, c);
      if last.0 == n {
        assert last.1 == c ==> decls[|decls| - 1] == (n, c);
      } else {
        if g :| 0 <= g < |front| && front[g] == (n, c) && forall h :: g < h < |front| ==> front[h].0 != n {
          assert decls[g] == (n, c) && forall h :: g < h < |decls| ==> decls[h].0 != n;
        }
        if g :| 0 <= g < |decls| && decls[g] == (n, c) && forall h :: g < h < |decls| ==> decls[h].0 != n {
          assert front[g] == (n, c);
        }
      }
    }
  }

  lemma {:induction false} ContractDeclared(files: Schema, n: string, c: ApiDecl)
    ensures n in ApiContracts(files) && ApiContracts(files)[n] == c <==> DeclaresContract(files, n, c)
  {
    hide Entered, ApiContracts;
    ContractsEntered(files);
    EnteredLast(Collected(files, (file: File) => Prefixed(file.apis, "") + Prefixed(file.services, "svc:")), n, c);
  }

  lemma {:induction false} ParamsDeclared(params: seq<Param>, p: string, q: Param)
    ensures ParamByName(params, p) == Some(q) <==> LastParam(params, p, q)
    ensures p in ParamTypes(params) <==> ParamByName(params, p).Some?
    ensures p in ParamTypes(params) ==> ParamTypes(params)[p] == ParamByName(params, p).value.typeName
    decreases |params|
  {
    if params != [] {
      var front, last := params[..|params| - 1], params[|params| - 1];
      ParamsDeclared(front, p, q);
      if last.name == p {
        assert last == q ==> params[|params| - 1] == q;
      } else {
        if j :| 0 <= j < |front| && front[j] == q && q.name == p && forall k :: j < k < |front| ==> front[k].name != p {
          assert params[j] == q && forall k :: j < k < |params| ==> params[k].name != p;
        }
        if j :| 0 <= j < |params| && params[j] == q && q.name == p && forall k :: j < k < |params| ==> params[k].name != p {
          assert front[j] == q;
        }
      }
    }
  }

  // ---------------------------------------------------------------- what is reported

  /** The lock has this type on record for the field. */
  predicate Recorded(e: Entity, f: string, t: string) {
    e.types.Some? && f in e.types.value && e.types.value[f] == t && t != ""
  }

  ghost predicate FieldRemoved(files: Schema, kind: string, e: Entity, n: string, f: string, before: Label, after: Label) {
    && f in e.fields && after.Absent? && (forall t :: !DeclaresField(files, kind, n, f, t))
    && match before
       case TypeLabel(t) => Recorded(e, f, t)
       case _ => before == FieldIdLabel(e.fields[f]) && forall t :: !Recorded(e, f, t)
  }

  predicate FieldRetyped(files: Schema, kind: string, e: Entity, n: string, f: string, before: Label, after: Label) {
    && f in e.fields && before.TypeLabel? && after.TypeLabel? && before != after
    && Recorded(e, f, before.typeName) && DeclaresField(files, kind, n, f, after.typeName)
  }

  predicate FieldAdded(files: Schema, kind: string, e: Entity, n: string, f: string, before: Label, after: Label) {
    e.types.Some? && f !in e.fields && before.Absent? && after.TypeLabel? && DeclaresField(files, kind, n, f, after.typeName)
  }

  /** A field is reported when it is locked and not declared, when it is declared with another type than the
      one on record, and, for events with types on record, when it is declared and not locked. */
  ghost predicate FieldReported(files: Schema, kind: string, locks: map<string, Entity>, rejects: bool, n: string, f: string, before: Label, after: Label) {
    && n in locks
    && (|| FieldRemoved(files, kind, locks[n], n, f, before, after)
        || FieldRetyped(files, kind, locks[n], n, f, before, after)
        || (rejects && FieldAdded(files, kind, locks[n], n, f, before, after)))
  }

  /** A parameter is reported when it is on record and not declared, when it is declared with another type,
      and when it is declared as required and not on record. */
  ghost predicate ParamReported(a: Api, c: ApiDecl, p: string, before: Label, after: Label) {
    || (before.TypeLabel? && p in a.paramTypes && a.paramTypes[p] == before.typeName && after.Absent? && forall q :: !LastParam(c.params, p, q))
    || (before.TypeLabel? && p in a.paramTypes && a.paramTypes[p] == before.typeName && after.TypeLabel? && before != after
        && exists q :: LastParam(c.params, p, q) && q.typeName == after.typeName)
    || (before.Absent? && p !in a.paramTypes && after.TypeLabel?
        && exists q :: LastParam(c.params, p, q) && !q.optional && q.typeName == after.typeName)
  }

  /** The declared contract an endpoint is compared with: it is offered, and the lock has a contract on record. */
  ghost predicate ComparedWith(l: Lock, files: Schema, n: string, c: ApiDecl) {
    n in l.apis && Offers(files, n) && l.apis[n].contract && DeclaresContract(files, n, c)
  }

  ghost predicate Reported(l: Lock, files: Schema, change: Change) {
    match change.path
    case FieldPath(kind, n, f) =>
      || (kind == "model" && FieldReported(files, "model", l.models, false, n, f, change.before, change.after))
      || (kind == "type" && FieldReported(files, "type", l.types, false, n, f, change.before, change.after))
      || (kind == "event" && FieldReported(files, "event", l.events, true, n, f, change.before, change.after))
    case ApiPath(n) => n in l.apis && !Offers(files, n) && change.before == ApiIdLabel(l.apis[n].id) && change.after.Absent?
    case ParamPath(n, p) => exists c :: ComparedWith(l, files, n, c) && ParamReported(l.apis[n], c, p, change.before, change.after)
    case ReturnPath(n) =>
      exists c :: ComparedWith(l, files, n, c) && change.before == TypeLabel(l.apis[n].returnType) &&
        change.after == TypeLabel(c.returnType) && l.apis[n].returnType != c.returnType
  }

  lemma {:induction false} PreviousIsRecorded(e: Entity, f: string)
    ensures PreviousType(e, f) != "" ==> Recorded(e, f, PreviousType(e, f))
    ensures forall t :: Recorded(e, f, t) ==> PreviousType(e, f) == t && t != ""
  {
  }

  /** `c` has the fields declared for the entity, with their types. */
  ghost predicate Holds(c: map<string, string>, files: Schema, kind: string, n: string, f: string) {
    && (forall t :: DeclaresField(files, kind, n, f, t) ==> f in c && c[f] == t)
    && (f in c ==> DeclaresField(files, kind, n, f, c[f]))
  }

  lemma {:induction false} ContractHolds(files: Schema, kind: string, n: string, f: string)
    ensures Holds(Get(ContractOf(files, kind), n, map[]), files, kind, n, f)
  {
    hide ContractOf, DeclaresField;
    var c := Get(ContractOf(files, kind), n, map[]);
    forall t ensures f in c && c[f] == t <==> DeclaresField(files, kind, n, f, t) {
      ContractDeclares(files, kind, n, f, t);
    }
  }

  lemma {:induction false} RemovedReported(files: Schema, kind: string, e: Entity, c: map<string, string>, n: string, f: string, before: Label, after: Label)
    requires Holds(c, files, kind, n, f)
    ensures Change(FieldPath(kind, n, f), before, after) in RemovedFields(kind, n, e, c) <==> FieldRemoved(files, kind, e, n, f, before, after)
  {
    hide DeclaresField, Recorded, PreviousType;
    PreviousIsRecorded(e, f);
  }

  lemma {:induction false} RetypedReported(files: Schema, kind: string, e: Entity, c: map<string, string>, n: string, f: string, before: Label, after: Label)
    requires Holds(c, files, kind, n, f)
    ensures Change(FieldPath(kind, n, f), before, after) in RetypedFields(kind, n, e, c) <==> FieldRetyped(files, kind, e, n, f, before, after)
    ensures Change(FieldPath(kind, n, f), before, after) in AddedFields(kind, n, e, c) <==> FieldAdded(files, kind, e, n, f, before, after)
  {
    hide DeclaresField;
    PreviousIsRecorded(e, f);
  }

  lemma {:induction false} EntityReported(files: Schema, kind: string, locks: map<string, Entity>, rejects: bool, n: string, f: string, before: Label, after: Label)
    requires n in locks
    ensures Change(FieldPath(kind, n, f), before, after) in CompareEntity(kind, n, locks[n], Get(ContractOf(files, kind), n, map[]), rejects) <==>
      FieldReported(files, kind, locks, rejects, n, f, before, after)
  {
    hide ContractOf, DeclaresField, FieldRemoved, FieldRetyped, FieldAdded, RemovedFields, RetypedFields, AddedFields, Get, Holds;
    var c := Get(ContractOf(files, kind), n, map[]);
    ContractHolds(files, kind, n, f);
    RemovedReported(files, kind, locks[n], c, n, f, before, after);
    RetypedReported(files, kind, locks[n], c, n, f, before, after);
  }

  lemma {:induction false} FieldsReported(files: Schema, kind: string, locks: map<string, Entity>, rejects: bool, change: Change)
    ensures change in CompareFields(kind, locks, ContractOf(files, kind), rejects) <==>
      change.path.FieldPath? && change.path.kind == kind
      && FieldReported(files, kind, locks, rejects, change.path.entity, change.path.field, change.before, change.after)
  {
    hide ContractOf;
    var contract := ContractOf(files, kind);
    forall n | n in locks && change in CompareEntity(kind, n, locks[n], Get(contract, n, map[]), rejects)
      ensures change.path.FieldPath? && change.path.kind == kind && change.path.entity == n
    {
    }
    hide CompareEntity, FieldReported;
    if change.path.FieldPath? && change.path.kind == kind {
      var n := change.path.entity;
      if n in locks {
        EntityReported(files, kind, locks, rejects, n, change.path.field, change.before, change.after);
      } else {
        assert !FieldReported(files, kind, locks, rejects, n, change.path.field, change.before, change.after) by { NotLocked(files, kind, locks, rejects, n, change.path.field, change.before, change.after); }
      }
    }
  }

  lemma {:induction false} NotLocked(files: Schema, kind: string, locks: map<string, Entity>, rejects: bool, n: string, f: string, before: Label, after: Label)
    requires n !in locks
    ensures !FieldReported(files, kind, locks, rejects, n, f, before, after)
  {
  }

  lemma {:induction false} ActiveOffers(files: Schema, n: string)
    ensures n in ActiveApiNames(files) <==> Offers(files, n)
  {
    hide ActiveApiNames, Offers, Registrations, Remaining, EndpointsOf, Collected, EndpointNames;
    ActiveAreRegistered(files);
    var at := RegistrationsAt(files);
    OffersName(files, at, n);
  }

  lemma {:induction false} ParamsReported(n: string, a: Api, c: ApiDecl, p: string, before: Label, after: Label)
    ensures Change(ParamPath(n, p), before, after) in CompareParams(n, a, c) <==> ParamReported(a, c, p, before, after)
  {
    hide ParamTypes, ParamByName, LastParam;
    forall q ensures ParamByName(c.params, p) == Some(q) <==> LastParam(c.params, p, q) {
      ParamsDeclared(c.params, p, q);
    }
    ParamsDeclared(c.params, p, Param(p, "", false));
    if p in ParamTypes(c.params) {
      assert LastParam(c.params, p, ParamByName(c.params, p).value);
    }
  }

  /** The contract of an endpoint that is compared is the one declared. */
  lemma {:induction false} Compared(l: Lock, files: Schema, n: string)
    ensures (exists c :: ComparedWith(l, files, n, c)) <==>
      n in l.apis && n in ActiveApiNames(files) && n in ApiContracts(files) && l.apis[n].contract
    ensures forall c :: ComparedWith(l, files, n, c) ==> ApiContracts(files)[n] == c
    ensures n in ApiContracts(files) && n in l.apis && n in ActiveApiNames(files) && l.apis[n].contract ==> ComparedWith(l, files, n, ApiContracts(files)[n])
  {
    hide ActiveApiNames, ApiContracts, Offers, DeclaresContract;
    ActiveOffers(files, n);
    forall c ensures n in ApiContracts(files) && ApiContracts(files)[n] == c <==> DeclaresContract(files, n, c) {
      ContractDeclared(files, n, c);
    }
    if n in ApiContracts(files) {
      assert DeclaresContract(files, n, ApiContracts(files)[n]);
      if n in l.apis && Offers(files, n) && l.apis[n].contract {
        assert ComparedWith(l, files, n, ApiContracts(files)[n]);
      }
    }
    if c :| ComparedWith(l, files, n, c) {
      assert DeclaresContract(files, n, c);
    }
  }

  lemma {:induction false} ApiReported(l: Lock, files: Schema, n: string, change: Change)
    requires n in l.apis
    ensures change in CompareApi(n, l.apis[n], ActiveApiNames(files), ApiContracts(files)) <==>
      !change.path.FieldPath? && change.path.api == n && Reported(l, files, change)
  {
    hide ActiveApiNames, ApiContracts, Offers, ComparedWith, CompareParams, ParamReported, FieldReported;
    ActiveOffers(files, n);
    Compared(l, files, n);
    if n in ApiContracts(files) {
      var c := ApiContracts(files)[n];
      OnlyParams(n, l.apis[n], c, change);
      if change.path.ParamPath? && change.path.api == n {
        ParamsReported(n, l.apis[n], c, change.path.param, change.before, change.after);
      }
    }
  }

  lemma {:induction false} OnlyParams(n: string, a: Api, c: ApiDecl, change: Change)
    ensures change in CompareParams(n, a, c) ==> change.path.ParamPath? && change.path.api == n
  {
    hide ParamTypes, ParamByName;
  }

  /** Main result: a change is reported if and only if the lock and the declarations of the schema differ in it. */
  lemma {:induction false} ReportedIff(l: Lock, files: Schema, change: Change)
    ensures change in BreakingChanges(l, files) <==> Reported(l, files, change)
  {
    hide CompareFields, CompareApi, ActiveApiNames, ApiContracts, FieldReported, Offers, ComparedWith, ParamReported;
    assert ContractOf(files, "model") == ModelContract(files) && ContractOf(files, "type") == TypeContract(files) && ContractOf(files, "event") == EventContract(files);
    hide ContractOf, ModelContract, TypeContract, EventContract;
    FieldsReported(files, "model", l.models, false, change);
    FieldsReported(files, "type", l.types, false, change);
    FieldsReported(files, "event", l.events, true, change);
    forall n | n in l.apis
      ensures change in CompareApi(n, l.apis[n], ActiveApiNames(files), ApiContracts(files)) <==>
        !change.path.FieldPath? && change.path.api == n && Reported(l, files, change)
    {
      ApiReported(l, files, n, change);
    }
    if Reported(l, files, change) && !change.path.FieldPath? {
      assert change.path.api in l.apis by { OnlyLockedApis(l, files, change); }
    }
  }

  lemma {:induction false} OnlyLockedApis(l: Lock, files: Schema, change: Change)
    requires Reported(l, files, change) && !change.path.FieldPath?
    ensures change.path.api in l.apis
  {
    hide Offers, DeclaresContract, ParamReported;
  }

  // ---------------------------------------------------------------- silence

  /** Every locked field is declared, with its recorded type where one is recorded. */
  ghost predicate FieldsKept(files: Schema, kind: string, locks: map<string, Entity>) {
    forall n, f :: n in locks && f in locks[n].fields ==>
      exists t :: DeclaresField(files, kind, n, f, t) && forall r :: Recorded(locks[n], f, r) ==> r == t
  }

  /** An event with types on record gains no field. */
  ghost predicate EventsClosed(files: Schema, events: map<string, Entity>) {
    forall n, f, t :: n in events && events[n].types.Some? && DeclaresField(files, "event", n, f, t) ==> f in events[n].fields
  }

  /** The contract on record is the declared one, but for new optional parameters. */
  ghost predicate ContractKept(a: Api, c: ApiDecl) {
    && (forall p :: p in a.paramTypes ==> exists q :: LastParam(c.params, p, q) && q.typeName == a.paramTypes[p])
    && (forall p, q :: LastParam(c.params, p, q) && p !in a.paramTypes ==> q.optional)
    && a.returnType == c.returnType
  }

  ghost predicate Silent(l: Lock, files: Schema) {
    && FieldsKept(files, "model", l.models) && FieldsKept(files, "type", l.types) && FieldsKept(files, "event", l.events)
    && EventsClosed(files, l.events)
    && (forall n :: n in l.apis ==> Offers(files, n))
    && (forall n, c :: ComparedWith(l, files, n, c) ==> ContractKept(l.apis[n], c))
  }

  lemma {:induction false} OneType(files: Schema, kind: string, n: string, f: string, t: string, t': string)
    requires DeclaresField(files, kind, n, f, t) && DeclaresField(files, kind, n, f, t')
    ensures t == t'
  {
    hide DeclaresField, ContractOf;
    ContractHolds(files, kind, n, f);
  }

  lemma {:induction false} OneRecord(e: Entity, f: string, r: string, r': string)
    requires Recorded(e, f, r) && Recorded(e, f, r')
    ensures r == r'
  {
  }

  /** A field that is not kept is reported, as removed or as retyped. */
  lemma {:induction false} NotKeptReported(files: Schema, kind: string, locks: map<string, Entity>, rejects: bool, n: string, f: string)
    returns (before: Label, after: Label)
    requires n in locks && f in locks[n].fields
    requires !exists t :: DeclaresField(files, kind, n, f, t) && forall r :: Recorded(locks[n], f, r) ==> r == t
    ensures FieldReported(files, kind, locks, rejects, n, f, before, after)
  {
    hide DeclaresField, Recorded;
    before, after := FieldIdLabel(locks[n].fields[f]), Absent;
    if r :| Recorded(locks[n], f, r) {
      before := TypeLabel(r);
      if t :| DeclaresField(files, kind, n, f, t) {
        after := TypeLabel(t);
        forall r' | Recorded(locks[n], f, r') ensures r' == r {
          OneRecord(locks[n], f, r, r');
        }
      }
    }
  }

  lemma {:induction false} KindSilent(files: Schema, kind: string, locks: map<string, Entity>, rejects: bool)
    ensures (forall n, f, before, after :: !FieldReported(files, kind, locks, rejects, n, f, before, after)) <==>
      && FieldsKept(files, kind, locks)
      && (rejects ==> forall n, f, t :: n in locks && locks[n].types.Some? && DeclaresField(files, kind, n, f, t) ==> f in locks[n].fields)
  {
    hide DeclaresField, Recorded;
    if forall n, f, before, after :: !FieldReported(files, kind, locks, rejects, n, f, before, after) {
      forall n, f | n in locks && f in locks[n].fields
        ensures exists t :: DeclaresField(files, kind, n, f, t) && forall r :: Recorded(locks[n], f, r) ==> r == t
      {
        if !exists t :: DeclaresField(files, kind, n, f, t) && forall r :: Recorded(locks[n], f, r) ==> r == t {
          var before, after := NotKeptReported(files, kind, locks, rejects, n, f);
          assert false;
        }
      }
      forall n, f, t | rejects && n in locks && locks[n].types.Some? && DeclaresField(files, kind, n, f, t) ensures f in locks[n].fields {
        assert !FieldReported(files, kind, locks, rejects, n, f, Absent, TypeLabel(t));
      }
    }
    if n, f, before, after :| FieldReported(files, kind, locks, rejects, n, f, before, after) {
      if f in locks[n].fields && FieldsKept(files, kind, locks) {
        var t :| DeclaresField(files, kind, n, f, t) && forall r :: Recorded(locks[n], f, r) ==> r == t;
        if after.TypeLabel? && DeclaresField(files, kind, n, f, after.typeName) {
          OneType(files, kind, n, f, t, after.typeName);
        }
      }
    }
  }

  lemma {:induction false} OneParam(params: seq<Param>, p: string, q: Param, q': Param)
    requires LastParam(params, p, q) && LastParam(params, p, q')
    ensures q == q'
  {
  }

  lemma {:induction false} ContractSilent(a: Api, c: ApiDecl)
    ensures (forall p, before, after :: !ParamReported(a, c, p, before, after)) && a.returnType == c.returnType <==> ContractKept(a, c)
  {
    hide LastParam;
    if forall p, before, after :: !ParamReported(a, c, p, before, after) {
      forall p | p in a.paramTypes ensures exists q :: LastParam(c.params, p, q) && q.typeName == a.paramTypes[p] {
        assert !ParamReported(a, c, p, TypeLabel(a.paramTypes[p]), Absent);
        var q :| LastParam(c.params, p, q);
        assert !ParamReported(a, c, p, TypeLabel(a.paramTypes[p]), TypeLabel(q.typeName));
      }
      forall p, q | LastParam(c.params, p, q) && p !in a.paramTypes ensures q.optional {
        assert !ParamReported(a, c, p, Absent, TypeLabel(q.typeName));
      }
    }
    if p, before, after :| ParamReported(a, c, p, before, after) {
      if p in a.paramTypes && ContractKept(a, c) {
        var q :| LastParam(c.params, p, q) && q.typeName == a.paramTypes[p];
        forall q' | LastParam(c.params, p, q') ensures q' == q {
          OneParam(c.params, p, q, q');
        }
      }
    }
  }

  lemma {:induction false} NoneReported(l: Lock, files: Schema)
    ensures BreakingChanges(l, files) == {} <==> forall change :: !Reported(l, files, change)
  {
    hide BreakingChanges, Reported;
    forall change ensures change in BreakingChanges(l, files) <==> Reported(l, files, change) {
      ReportedIff(l, files, change);
    }
    if change :| Reported(l, files, change) {
      assert change in BreakingChanges(l, files);
    }
  }

  lemma {:induction false} SilentNoneReported(l: Lock, files: Schema, change: Change)
    requires Silent(l, files)
    ensures !Reported(l, files, change)
  {
    hide FieldReported, FieldsKept, Offers, DeclaresContract, ParamReported, ContractKept, DeclaresField;
    KindSilent(files, "model", l.models, false);
    KindSilent(files, "type", l.types, false);
    KindSilent(files, "event", l.events, true);
    forall n, c | ComparedWith(l, files, n, c)
      ensures (forall p, before, after :: !ParamReported(l.apis[n], c, p, before, after)) && l.apis[n].returnType == c.returnType
    {
      ContractSilent(l.apis[n], c);
    }
  }

  lemma {:induction false} NoneReportedSilent(l: Lock, files: Schema)
    requires forall change :: !Reported(l, files, change)
    ensures Silent(l, files)
  {
    hide FieldReported, FieldsKept, Offers, DeclaresContract, ParamReported, ContractKept, DeclaresField;
    forall n, f, before, after
      ensures !FieldReported(files, "model", l.models, false, n, f, before, after)
      ensures !FieldReported(files, "type", l.types, false, n, f, before, after)
      ensures !FieldReported(files, "event", l.events, true, n, f, before, after)
    {
      assert !Reported(l, files, Change(FieldPath("model", n, f), before, after));
      assert !Reported(l, files, Change(FieldPath("type", n, f), before, after));
      assert !Reported(l, files, Change(FieldPath("event", n, f), before, after));
    }
    KindSilent(files, "model", l.models, false);
    KindSilent(files, "type", l.types, false);
    KindSilent(files, "event", l.events, true);
    forall n | n in l.apis ensures Offers(files, n) {
      assert !Reported(l, files, Change(ApiPath(n), ApiIdLabel(l.apis[n].id), Absent));
    }
    forall n, c | ComparedWith(l, files, n, c) ensures ContractKept(l.apis[n], c) {
      forall p, before, after ensures !ParamReported(l.apis[n], c, p, before, after) {
        assert !Reported(l, files, Change(ParamPath(n, p), before, after));
      }
      assert !Reported(l, files, Change(ReturnPath(n), TypeLabel(l.apis[n].returnType), TypeLabel(c.returnType)));
      ContractSilent(l.apis[n], c);
    }
  }

  /** Main result: the check is silent if and only if every locked field is declared with the type on record,
      events with types on record gain no field, every locked endpoint is offered, and every contract on
      record is the declared one but for new optional parameters. */
  lemma {:induction false} SilentIff(l: Lock, files: Schema)
    ensures BreakingChanges(l, files) == {} <==> Silent(l, files)
  {
    hide BreakingChanges, Reported, Silent;
    NoneReported(l, files);
    if Silent(l, files) {
      forall change ensures !Reported(l, files, change) {
        SilentNoneReported(l, files, change);
      }
    } else if forall change :: !Reported(l, files, change) {
      NoneReportedSilent(l, files);
    }
  }

  // ---------------------------------------------------------------- parameters of declared APIs

  lemma {:induction false} EnteredHas(decls: seq<(string, ApiDecl)>, n: string)
    ensures n in Entered(map[], decls) <==> exists g :: 0 <= g < |decls| && decls[g].0 == n
    decreases |decls|
  {
    if decls != [] {
      var front := decls[..|decls| - 1];
      EnteredHas(front, n);
      if g :| 0 <= g < |front| && front[g].0 == n {
        assert decls[g].0 == n;
      }
      if g :| 0 <= g < |decls| && decls[g].0 == n {
        assert g < |front| ==> front[g].0 == n;
      }
    }
  }

  lemma {:induction false} DeclaredHasContract(files: Schema, n: string)
    requires DeclaresApi(files, n)
    ensures n in ApiContracts(files)
  {
    hide ApiContracts, Entered;
    var part := (file: File) => Prefixed(file.apis, "") + Prefixed(file.services, "svc:");
    var all := Collected(files, part);
    var i, k :| 0 <= i < |files| && 0 <= k < |files[i].apis| && files[i].apis[k].name == n;
    assert "" + files[i].apis[k].name == n;
    assert Prefixed(files[i].apis, "")[k] == (n, files[i].apis[k]);
    assert part(files[i])[k] == (n, files[i].apis[k]);
    CollectedHas(files, part, (n, files[i].apis[k]));
    var g :| 0 <= g < |all| && all[g] == (n, files[i].apis[k]);
    ContractsEntered(files);
    EnteredHas(all, n);
  }

  lemma {:induction false} DeclaredAgree(files: Schema, n: string, params: set<string>)
    requires DeclaredWith(files, n, params)
    ensures AgreeAt(Registrations(files), n)
  {
    hide DeclaredWith, Remaining, Collected, NamesOf, Registrations, EndpointsOf;
    var at := RegistrationsAt(files);
    OnlyDeclaredParams(files, at, n, params);
  }

  /** An accepted schema that declares the API, all derived endpoints of its name deferring, keeps its ID and all
      parameter IDs on record, whatever it overrides. */
  lemma {:induction false} AcceptedKeepsDeclared(l: Lock, files: Schema, n: string, params: set<string>)
    requires LockInv(l) && BreakingChanges(l, files) == {} && DeclaredWith(files, n, params)
    requires n in l.apis && Contracted(l.apis[n])
    ensures var u := Update(l, files);
      n in u.apis && ApiRetains(l.apis[n], u.apis[n]) && u.apis[n].params.Keys == params && Contracted(u.apis[n])
  {
    hide LockInv, BreakingChanges, Update, AgreeAt, Registrations, ApiContracts;
    DeclaredHasContract(files, n);
    DeclaredAgree(files, n, params);
    AcceptedKeepsParams(l, files, n);
    DeclaredApiUpdated(l, files, n, params);
  }
}
