/**
 The stable IDs of `luxo.lock`: what one update, one reload and one compatibility check do to the
 lock, as functions. Reserved IDs are sets here; LockFileObject keeps them in the slices the file has.
 */
module LockModel {
  import opened Wrappers

  // ---------------------------------------------------------------- schemas

  datatype FieldDecl = FieldDecl(name: string, typeName: string)

  /** A model, extend, type or event declaration. */
  datatype Group = Group(name: string, fields: seq<FieldDecl>)

  /** `optional`: nullable or with a default. */
  datatype Param = Param(name: string, typeName: string, optional: bool)

  /** A declared API or a service function, with its effective parameters. */
  datatype ApiDecl = ApiDecl(name: string, params: seq<Param>, returnType: string)

  /** An endpoint to register. `defers`: it is skipped when an API of that name is declared. */
  datatype Endpoint = Endpoint(name: string, params: seq<string>, defers: bool)

  /** One parsed file; `crud`, `federation` and `loads` are the endpoints derived from it. */
  datatype File = File(
    models: seq<Group>, extensions: seq<Group>, types: seq<Group>, events: seq<Group>,
    crud: seq<Endpoint>, federation: seq<Endpoint>, loads: seq<Endpoint>,
    apis: seq<ApiDecl>, services: seq<ApiDecl>)

  type Schema = seq<File>

  // ---------------------------------------------------------------- the lock

  /** `types` is None where the file has no field types, which the checker tells from empty ones. */
  datatype Entity = Entity(nextId: nat, fields: map<string, nat>, types: Option<map<string, string>>, reserved: set<nat>)

  datatype Api = Api(id: nat, params: map<string, nat>, reserved: set<nat>, nextP: nat,
                     contract: bool, paramTypes: map<string, string>, returnType: string)

  datatype Lock = Lock(models: map<string, Entity>, types: map<string, Entity>, events: map<string, Entity>,
                       apis: map<string, Api>, reservedApis: set<nat>, nextApi: nat)

  const NEW_ENTITY := Entity(1, map[], None, {})
  const NEW_LOCK := Lock(map[], map[], map[], map[], {}, 0)

  // ---------------------------------------------------------------- names and contracts of a schema

  function FieldNames(fields: seq<FieldDecl>): set<string> {
    set i | 0 <= i < |fields| :: fields[i].name
  }

  function TypesOf(fields: seq<FieldDecl>): map<string, string> {
    if fields == [] then map[]
    else
      var front, last := fields[..|fields| - 1], fields[|fields| - 1];
      TypesOf(front)[last.name := last.typeName]
  }

  function Get<V>(m: map<string, V>, k: string, default: V): V {
    if k in m then m[k] else default
  }

  /** Field types per name, declarations of one name merged in order. */
  function Merged(groups: seq<Group>): map<string, map<string, string>> {
    if groups == [] then map[]
    else
      var front, last := groups[..|groups| - 1], groups[|groups| - 1];
      var rest := Merged(front);
      rest[last.name := Get(rest, last.name, map[]) + TypesOf(last.fields)]
  }

  /** Field types per name, the last declaration of a name winning. */
  function Latest(groups: seq<Group>): map<string, map<string, string>> {
    if groups == [] then map[]
    else
      var front, last := groups[..|groups| - 1], groups[|groups| - 1];
      Latest(front)[last.name := TypesOf(last.fields)]
  }

  function Models(files: Schema): seq<Group> { if files == [] then [] else files[0].models + Models(files[1..]) }
  function Extensions(files: Schema): seq<Group> { if files == [] then [] else files[0].extensions + Extensions(files[1..]) }
  function Types(files: Schema): seq<Group> { if files == [] then [] else files[0].types + Types(files[1..]) }
  function Events(files: Schema): seq<Group> { if files == [] then [] else files[0].events + Events(files[1..]) }

  /** Models and extends in the order in which the contract merges them: file by file. */
  function ModelsAndExtensions(files: Schema): seq<Group> {
    if files == [] then [] else files[0].models + files[0].extensions + ModelsAndExtensions(files[1..])
  }

  function ModelContract(files: Schema): map<string, map<string, string>> { Merged(ModelsAndExtensions(files)) }
  function TypeContract(files: Schema): map<string, map<string, string>> { Latest(Types(files)) }
  function EventContract(files: Schema): map<string, map<string, string>> { Latest(Events(files)) }

  function Apis(files: Schema): seq<ApiDecl> { if files == [] then [] else files[0].apis + Apis(files[1..]) }
  function Services(files: Schema): seq<ApiDecl> { if files == [] then [] else files[0].services + Services(files[1..]) }
  function Crud(files: Schema): seq<Endpoint> { if files == [] then [] else files[0].crud + Crud(files[1..]) }
  function Federation(files: Schema): seq<Endpoint> { if files == [] then [] else files[0].federation + Federation(files[1..]) }
  function Loads(files: Schema): seq<Endpoint> { if files == [] then [] else files[0].loads + Loads(files[1..]) }

  const SERVICE := "svc:"

  function ParamNames(params: seq<Param>): (names: seq<string>)
    ensures |names| == |params| && forall i :: 0 <= i < |params| ==> names[i] == params[i].name
  {
    seq(|params|, i requires 0 <= i < |params| => params[i].name)
  }

  function Declared(apis: seq<ApiDecl>, prefix: string): seq<Endpoint> {
    if apis == [] then []
    else [Endpoint(prefix + apis[0].name, ParamNames(apis[0].params), false)] + Declared(apis[1..], prefix)
  }

  function NotDeferring(endpoints: seq<Endpoint>, declared: set<string>): seq<Endpoint> {
    if endpoints == [] then []
    else (if endpoints[0].defers && endpoints[0].name in declared then [] else [endpoints[0]]) +
         NotDeferring(endpoints[1..], declared)
  }

  function ApiNames(apis: seq<ApiDecl>): set<string> {
    set i | 0 <= i < |apis| :: apis[i].name
  }

  /** The endpoints one update registers, in order: CRUD, federation, named loads, APIs, services. */
  function Registrations(files: Schema): seq<Endpoint> {
    NotDeferring(Crud(files), ApiNames(Apis(files))) + Federation(files) + Loads(files) +
    Declared(Apis(files), "") + Declared(Services(files), SERVICE)
  }

  function EndpointNames(endpoints: seq<Endpoint>): set<string> {
    set i | 0 <= i < |endpoints| :: endpoints[i].name
  }

  /** The declared contracts by endpoint name, later declarations replacing earlier ones. */
  function ApiContracts(files: Schema): map<string, ApiDecl> {
    if files == [] then map[]
    else
      var front, last := files[..|files| - 1], files[|files| - 1];
      AddContracts(AddContracts(ApiContracts(front), last.apis, ""), last.services, SERVICE)
  }

  function AddContracts(m: map<string, ApiDecl>, apis: seq<ApiDecl>, prefix: string): map<string, ApiDecl>
    decreases |apis|
  {
    if apis == [] then m
    else
      var front, last := apis[..|apis| - 1], apis[|apis| - 1];
      AddContracts(m, front, prefix)[prefix + last.name := last]
  }

  /** Parameter types by name, the last parameter of a name winning. */
  function ParamTypes(params: seq<Param>): map<string, string> {
    if params == [] then map[]
    else
      var front, last := params[..|params| - 1], params[|params| - 1];
      ParamTypes(front)[last.name := last.typeName]
  }

  function ParamByName(params: seq<Param>, name: string): Option<Param> {
    if params == [] then None
    else if params[|params| - 1].name == name then Some(params[|params| - 1])
    else ParamByName(params[..|params| - 1], name)
  }

  // ---------------------------------------------------------------- updating entities

  /** Moves the IDs of the fields that are no longer declared to the reserved ones. */
  function ReserveMissing(e: Entity, current: set<string>): Entity {
    e.(fields := map f | f in e.fields && f in current :: e.fields[f],
       reserved := e.reserved + set f | f in e.fields && f !in current :: e.fields[f])
  }

  function AssignOne(e: Entity, name: string): Entity {
    if name in e.fields then e
    else e.(fields := e.fields[name := e.nextId], nextId := e.nextId + 1)
  }

  /** Gives the next free ID to every new field, in declaration order. */
  function Assign(e: Entity, fields: seq<FieldDecl>): Entity
    decreases |fields|
  {
    if fields == [] then e
    else AssignOne(Assign(e, fields[..|fields| - 1]), fields[|fields| - 1].name)
  }

  function ReserveAll(locks: map<string, Entity>, current: map<string, map<string, string>>): map<string, Entity> {
    map n | n in locks :: ReserveMissing(locks[n], Get(current, n, map[]).Keys)
  }

  function AssignAll(locks: map<string, Entity>, groups: seq<Group>): map<string, Entity>
    decreases |groups|
  {
    if groups == [] then locks
    else
      var front, last := groups[..|groups| - 1], groups[|groups| - 1];
      var rest := AssignAll(locks, front);
      rest[last.name := Assign(Get(rest, last.name, NEW_ENTITY), last.fields)]
  }

  /** The types of the locked fields that the contract knows. */
  function KnownTypes(c: map<string, string>, fields: map<string, nat>): map<string, string> {
    map f | f in c && f in fields :: c[f]
  }

  function Stamp(locks: map<string, Entity>, contract: map<string, map<string, string>>): map<string, Entity> {
    map n | n in locks :: locks[n].(types := Some(KnownTypes(Get(contract, n, map[]), locks[n].fields)))
  }

  // ---------------------------------------------------------------- updating APIs

  ghost function MaxOf(s: set<nat>): (m: nat)
    ensures m == 0 || m in s
    ensures forall x :: x in s ==> x <= m
  {
    if s == {} then 0
    else
      var x :| x in s;
      var rest := MaxOf(s - {x});
      assert forall y :: y in s ==> y == x || y in s - {x};
      if x > rest then x else rest
  }

  function IdsOf(params: map<string, nat>): set<nat> {
    set p | p in params :: params[p]
  }

  /** The largest parameter ID in use, reserved or remembered in memory. */
  ghost function HighWater(a: Api): nat {
    MaxOf({a.nextP} + IdsOf(a.params) + a.reserved)
  }

  function AssignParam(a: Api, name: string): Api {
    if name in a.params then a
    else a.(params := a.params[name := a.nextP + 1], nextP := a.nextP + 1)
  }

  function AssignParams(a: Api, names: seq<string>): Api
    decreases |names|
  {
    if names == [] then a else AssignParam(AssignParams(a, names[..|names| - 1]), names[|names| - 1])
  }

  function DropParams(a: Api, current: set<string>): Api {
    a.(params := map p | p in a.params && p in current :: a.params[p],
       reserved := a.reserved + set p | p in a.params && p !in current :: a.params[p])
  }

  function NamesOf(names: seq<string>): set<string> { set i | 0 <= i < |names| :: names[i] }

  function NewApi(id: nat): Api { Api(id, map[], {}, 0, false, map[], "") }

  ghost function EnsureParams(a: Api, names: seq<string>): Api {
    DropParams(AssignParams(a.(nextP := HighWater(a)), names), NamesOf(names))
  }

  /** Registers an endpoint: a new one takes the next API ID, then its parameters are synchronised. */
  ghost function Ensure(l: Lock, e: Endpoint): Lock {
    var known := e.name in l.apis;
    var nextApi := if known then l.nextApi else l.nextApi + 1;
    var api := if known then l.apis[e.name] else NewApi(nextApi);
    l.(apis := l.apis[e.name := EnsureParams(api, e.params)], nextApi := nextApi)
  }

  ghost function EnsureAll(l: Lock, endpoints: seq<Endpoint>): Lock
    decreases |endpoints|
  {
    if endpoints == [] then l else Ensure(EnsureAll(l, endpoints[..|endpoints| - 1]), endpoints[|endpoints| - 1])
  }

  function DropApis(l: Lock, active: set<string>): Lock {
    l.(apis := map n | n in l.apis && n in active :: l.apis[n],
       reservedApis := l.reservedApis + set n | n in l.apis && n !in active :: l.apis[n].id)
  }

  ghost function UpdateApis(l: Lock, files: Schema): Lock {
    var regs := Registrations(files);
    DropApis(EnsureAll(l, regs), EndpointNames(regs))
  }

  function StampApis(apis: map<string, Api>, contracts: map<string, ApiDecl>): map<string, Api> {
    map n | n in apis ::
      if n in contracts then
        apis[n].(contract := true, paramTypes := ParamTypes(contracts[n].params), returnType := contracts[n].returnType)
      else apis[n]
  }

  // ---------------------------------------------------------------- the operations on a lock

  /** What Update does before the wire types are recorded. */
  ghost function AssignIds(l: Lock, files: Schema): Lock {
    var models := AssignAll(ReserveAll(l.models, ModelContract(files)), Models(files));
    var types := AssignAll(ReserveAll(l.types, TypeContract(files)), Types(files));
    var events := AssignAll(ReserveAll(l.events, EventContract(files)), Events(files));
    UpdateApis(l.(models := AssignAll(models, Extensions(files)), types := types, events := events), files)
  }

  ghost function Update(l: Lock, files: Schema): Lock {
    var u := AssignIds(l, files);
    u.(models := Stamp(u.models, ModelContract(files)), types := Stamp(u.types, TypeContract(files)),
       events := Stamp(u.events, EventContract(files)), apis := StampApis(u.apis, ApiContracts(files)))
  }

  function ForgetEmptyTypes(locks: map<string, Entity>): map<string, Entity> {
    map n | n in locks :: if locks[n].types == Some(map[]) then locks[n].(types := None) else locks[n]
  }

  /** Save followed by Load: empty field types are not written, the counters of the APIs are lost and
      the API counter is computed from the IDs in the file. */
  ghost function Reload(l: Lock): Lock {
    Lock(ForgetEmptyTypes(l.models), ForgetEmptyTypes(l.types), ForgetEmptyTypes(l.events),
         map n | n in l.apis :: l.apis[n].(nextP := 0), l.reservedApis,
         MaxOf((set n | n in l.apis :: l.apis[n].id) + l.reservedApis))
  }

  // ---------------------------------------------------------------- breaking changes

  datatype Path = FieldPath(kind: string, entity: string, field: string) | ApiPath(api: string)
    | ParamPath(api: string, param: string) | ReturnPath(api: string)

  datatype Label = Absent | TypeLabel(typeName: string) | FieldIdLabel(id: nat) | ApiIdLabel(id: nat)

  datatype Change = Change(path: Path, before: Label, after: Label)

  function PreviousType(e: Entity, field: string): string {
    match e.types
    case None => ""
    case Some(types) => Get(types, field, "")
  }

  function ContractLabel(typeName: string, id: nat): Label {
    if typeName != "" then TypeLabel(typeName) else FieldIdLabel(id)
  }

  function RemovedFields(kind: string, n: string, e: Entity, current: map<string, string>): set<Change> {
    set f | f in e.fields && f !in current ::
      Change(FieldPath(kind, n, f), ContractLabel(PreviousType(e, f), e.fields[f]), Absent)
  }

  function RetypedFields(kind: string, n: string, e: Entity, current: map<string, string>): set<Change> {
    set f | f in e.fields && f in current && PreviousType(e, f) != "" && PreviousType(e, f) != current[f] ::
      Change(FieldPath(kind, n, f), TypeLabel(PreviousType(e, f)), TypeLabel(current[f]))
  }

  function AddedFields(kind: string, n: string, e: Entity, current: map<string, string>): set<Change> {
    if e.types.None? then {}
    else set f | f in current && f !in e.fields :: Change(FieldPath(kind, n, f), Absent, TypeLabel(current[f]))
  }

  function CompareEntity(kind: string, n: string, e: Entity, current: map<string, string>, rejectAdditions: bool): set<Change> {
    RemovedFields(kind, n, e, current) + RetypedFields(kind, n, e, current) +
    (if rejectAdditions then AddedFields(kind, n, e, current) else {})
  }

  function CompareFields(kind: string, locks: map<string, Entity>, contract: map<string, map<string, string>>, rejectAdditions: bool): set<Change> {
    set n, c | n in locks && c in CompareEntity(kind, n, locks[n], Get(contract, n, map[]), rejectAdditions) :: c
  }

  /** The names a scratch lock ends up with when the schema's endpoints are registered in it. */
  ghost function ActiveApiNames(files: Schema): set<string> {
    UpdateApis(NEW_LOCK, files).apis.Keys
  }

  function CompareParams(n: string, a: Api, c: ApiDecl): set<Change> {
    var types := ParamTypes(c.params);
    (set p | p in a.paramTypes && p !in types :: Change(ParamPath(n, p), TypeLabel(a.paramTypes[p]), Absent)) +
    (set p | p in a.paramTypes && p in types && a.paramTypes[p] != types[p] ::
      Change(ParamPath(n, p), TypeLabel(a.paramTypes[p]), TypeLabel(types[p]))) +
    (set p | p in types && p !in a.paramTypes && ParamByName(c.params, p).Some? && !ParamByName(c.params, p).value.optional ::
      Change(ParamPath(n, p), Absent, TypeLabel(types[p])))
  }

  function CompareContract(n: string, a: Api, c: ApiDecl): set<Change> {
    CompareParams(n, a, c) +
    (if a.returnType != c.returnType then {Change(ReturnPath(n), TypeLabel(a.returnType), TypeLabel(c.returnType))} else {})
  }

  function CompareApi(n: string, a: Api, active: set<string>, contracts: map<string, ApiDecl>): set<Change> {
    if n !in active then {Change(ApiPath(n), ApiIdLabel(a.id), Absent)}
    else if n !in contracts || !a.contract then {}
    else CompareContract(n, a, contracts[n])
  }

  ghost function CompareApis(l: Lock, files: Schema): set<Change> {
    set n, c | n in l.apis && c in CompareApi(n, l.apis[n], ActiveApiNames(files), ApiContracts(files)) :: c
  }

  ghost function BreakingChanges(l: Lock, files: Schema): set<Change> {
    CompareFields("model", l.models, ModelContract(files), false) +
    CompareFields("type", l.types, TypeContract(files), false) +
    CompareFields("event", l.events, EventContract(files), true) +
    CompareApis(l, files)
  }
}
