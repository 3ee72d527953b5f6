/**
 The schema diff of the migration engine, with the iteration order of every Go map as a parameter,
 and what executing its operations, one after the other, does to the database.
 */
module SchemaDiff {
  import opened Wrappers

  datatype Column = Column(typeName: string, nullable: bool, pk: bool, unique: bool, serial: bool, default: string)

  datatype Index = Index(name: string, kind: string, columns: seq<string>)

  /** The recorded state of a model's table; table names are a function of model names. */
  datatype ModelState = ModelState(columns: map<string, Column>, indexes: seq<Index>)

  type SchemaState = map<string, ModelState>

  datatype TableOp =
    | AddColumn(column: string, new_: Column)
    | DropColumn(column: string, old_: Column)
    | AlterColumn(column: string, old_: Column, new_: Column)
    | RenameColumn(oldName: string, column: string, old_: Column, new_: Column)
    | AddIndex(index: Index)
    | DropIndex(index: Index)

  datatype Op = CreateTable(model: string) | DropTable(model: string) | AlterTable(model: string, op: TableOp)

  // ---------------------------------------------------------------- executing operations

  /** A table in the database. */
  datatype Table = Table(columns: map<string, Column>, indexes: map<string, Index>)

  type Database = map<string, Table>

  /** Indexes by name, a later one of the same name replacing an earlier one. */
  function IndexMap(indexes: seq<Index>): map<string, Index>
    decreases |indexes|
  {
    if indexes == [] then map[]
    else IndexMap(indexes[..|indexes| - 1])[indexes[|indexes| - 1].name := indexes[|indexes| - 1]]
  }

  function TableOf(m: ModelState): Table { Table(m.columns, IndexMap(m.indexes)) }

  function DatabaseOf(s: SchemaState): Database { map m | m in s :: TableOf(s[m]) }

  /** ALTER COLUMN statements are issued for the attributes that differ; keys and sequences have none. */
  function Altered(c: Column, old_: Column, new_: Column): Column {
    c.(typeName := if old_.typeName != new_.typeName then new_.typeName else c.typeName,
       nullable := if old_.nullable != new_.nullable then new_.nullable else c.nullable,
       unique := if old_.unique != new_.unique then new_.unique else c.unique,
       default := if old_.default != new_.default then new_.default else c.default)
  }

  /** One statement on a table; None when the database would reject it. */
  function Execute(t: Table, op: TableOp): Option<Table> {
    match op
    case AddColumn(c, n) =>
      if c in t.columns then None else Some(t.(columns := t.columns[c := n]))
    case DropColumn(c, _) =>
      if c !in t.columns then None else Some(t.(columns := t.columns - {c}))
    case AlterColumn(c, o, n) =>
      if c !in t.columns then None else Some(t.(columns := t.columns[c := Altered(t.columns[c], o, n)]))
    case RenameColumn(o, c, _, _) =>
      if o !in t.columns || c in t.columns then None
      else Some(t.(columns := (t.columns - {o})[c := t.columns[o]]))
    case AddIndex(i) =>
      if i.name in t.indexes then None else Some(t.(indexes := t.indexes[i.name := i]))
    case DropIndex(i) =>
      if i.name !in t.indexes then None else Some(t.(indexes := t.indexes - {i.name}))
  }

  function ExecuteAll(t: Table, ops: seq<TableOp>): Option<Table>
    decreases |ops|
  {
    if ops == [] then Some(t)
    else match Execute(t, ops[0])
      case None => None
      case Some(t') => ExecuteAll(t', ops[1..])
  }

  function ExecuteOp(db: Database, op: Op, desired: SchemaState): Option<Database> {
    match op
    case CreateTable(m) => if m in db || m !in desired then None else Some(db[m := TableOf(desired[m])])
    case DropTable(m) => if m !in db then None else Some(db - {m})
    case AlterTable(m, o) =>
      if m !in db then None
      else match Execute(db[m], o)
        case None => None
        case Some(t) => Some(db[m := t])
  }

  function ExecuteOps(db: Database, ops: seq<Op>, desired: SchemaState): Option<Database>
    decreases |ops|
  {
    if ops == [] then Some(db)
    else match ExecuteOp(db, ops[0], desired)
      case None => None
      case Some(db') => ExecuteOps(db', ops[1..], desired)
  }

  // ---------------------------------------------------------------- the diff of one table

  /** Field IDs to column names, before and after. */
  datatype FieldIds = FieldIds(oldById: map<nat, string>, newById: map<nat, string>)

  /** The order in which the loops meet the keys of the maps they range over. */
  datatype TableOrder = TableOrder(ids: seq<nat>, renames: seq<string>, desired: seq<string>, current: seq<string>,
                                   changed: seq<string>, newIndexes: seq<string>, oldIndexes: seq<string>)

  ghost predicate Enumerates<T(!new)>(order: seq<T>, keys: set<T>) {
    && (forall x :: x in order <==> x in keys)
    && (forall i, j :: 0 <= i < j < |order| ==> order[i] != order[j])
  }

  predicate ColumnChanged(o: Column, n: Column) {
    o.typeName != n.typeName || o.nullable != n.nullable || o.unique != n.unique || o.default != n.default
  }

  /** A renamed field: one ID, two column names, the old one current and the new one desired. */
  predicate IsRename(fim: FieldIds, id: nat, current: ModelState, desired: ModelState) {
    && id in fim.oldById && id in fim.newById && fim.oldById[id] != fim.newById[id]
    && fim.oldById[id] in current.columns && fim.newById[id] in desired.columns
  }

  function DetectRenames(ids: seq<nat>, fim: FieldIds, current: ModelState, desired: ModelState): map<string, string>
    decreases |ids|
  {
    if ids == [] then map[]
    else
      var rest, id := DetectRenames(ids[..|ids| - 1], fim, current, desired), ids[|ids| - 1];
      if IsRename(fim, id, current, desired) then rest[fim.oldById[id] := fim.newById[id]] else rest
  }

  /** Old names are current columns, new names desired ones. */
  predicate Meaningful(renames: map<string, string>, current: ModelState, desired: ModelState) {
    forall o :: o in renames ==> o in current.columns && renames[o] in desired.columns
  }

  lemma {:induction false} DetectedAreMeaningful(ids: seq<nat>, fim: FieldIds, current: ModelState, desired: ModelState)
    ensures Meaningful(DetectRenames(ids, fim, current, desired), current, desired)
    decreases |ids|
  {
    if ids != [] {
      DetectedAreMeaningful(ids[..|ids| - 1], fim, current, desired);
    }
  }

  function RenameOps(order: seq<string>, renames: map<string, string>, current: ModelState, desired: ModelState): seq<TableOp>
    requires Meaningful(renames, current, desired) && forall o :: o in order ==> o in renames
    decreases |order|
  {
    if order == [] then []
    else
      var o := order[|order| - 1];
      var n := renames[o];
      var old_, new_ := current.columns[o], desired.columns[n];
      RenameOps(order[..|order| - 1], renames, current, desired) + [RenameColumn(o, n, old_, new_)] +
      (if ColumnChanged(old_, new_) then [AlterColumn(n, old_, new_)] else [])
  }

  function Targets(renames: map<string, string>): set<string> { set o | o in renames :: renames[o] }

  function AddOps(order: seq<string>, current: ModelState, desired: ModelState, renamedNew: set<string>): seq<TableOp>
    requires forall c :: c in order ==> c in desired.columns
    decreases |order|
  {
    if order == [] then []
    else
      var c := order[|order| - 1];
      AddOps(order[..|order| - 1], current, desired, renamedNew) +
      (if c in current.columns || c in renamedNew then [] else [AddColumn(c, desired.columns[c])])
  }

  function DropOps(order: seq<string>, current: ModelState, desired: ModelState, renamedOld: set<string>): seq<TableOp>
    requires forall c :: c in order ==> c in current.columns
    decreases |order|
  {
    if order == [] then []
    else
      var c := order[|order| - 1];
      DropOps(order[..|order| - 1], current, desired, renamedOld) +
      (if c in desired.columns || c in renamedOld then [] else [DropColumn(c, current.columns[c])])
  }

  function ChangeOps(order: seq<string>, current: ModelState, desired: ModelState, renamedNew: set<string>): seq<TableOp>
    requires forall c :: c in order ==> c in desired.columns
    decreases |order|
  {
    if order == [] then []
    else
      var c := order[|order| - 1];
      ChangeOps(order[..|order| - 1], current, desired, renamedNew) +
      (if c !in current.columns || c in renamedNew || !ColumnChanged(current.columns[c], desired.columns[c]) then []
       else [AlterColumn(c, current.columns[c], desired.columns[c])])
  }

  function NewIndexOps(order: seq<string>, current: map<string, Index>, desired: map<string, Index>): seq<TableOp>
    requires forall n :: n in order ==> n in desired
    decreases |order|
  {
    if order == [] then []
    else
      var n := order[|order| - 1];
      NewIndexOps(order[..|order| - 1], current, desired) + (if n in current then [] else [AddIndex(desired[n])])
  }

  function OldIndexOps(order: seq<string>, current: map<string, Index>, desired: map<string, Index>): seq<TableOp>
    requires forall n :: n in order ==> n in current
    decreases |order|
  {
    if order == [] then []
    else
      var n := order[|order| - 1];
      OldIndexOps(order[..|order| - 1], current, desired) + (if n in desired then [] else [DropIndex(current[n])])
  }

  /** The orders are those of the maps being ranged over. */
  ghost predicate ValidOrder(order: TableOrder, renames: map<string, string>, current: ModelState, desired: ModelState) {
    && Enumerates(order.renames, renames.Keys)
    && Enumerates(order.desired, desired.columns.Keys)
    && Enumerates(order.current, current.columns.Keys)
    && Enumerates(order.changed, desired.columns.Keys)
    && Enumerates(order.newIndexes, IndexMap(desired.indexes).Keys)
    && Enumerates(order.oldIndexes, IndexMap(current.indexes).Keys)
  }

  /** diffColumns: renames, additions, drops, changes. */
  function ColumnOps(order: TableOrder, renames: map<string, string>, current: ModelState, desired: ModelState): seq<TableOp>
    requires Meaningful(renames, current, desired) && ValidOrder(order, renames, current, desired)
  {
    var renamedNew := Targets(renames);
    RenameOps(order.renames, renames, current, desired) +
    ((AddOps(order.desired, current, desired, renamedNew) + DropOps(order.current, current, desired, renames.Keys)) +
     ChangeOps(order.changed, current, desired, renamedNew))
  }

  /** diffIndexes: by name only. */
  function IndexOps(order: TableOrder, renames: map<string, string>, current: ModelState, desired: ModelState): seq<TableOp>
    requires ValidOrder(order, renames, current, desired)
  {
    NewIndexOps(order.newIndexes, IndexMap(current.indexes), IndexMap(desired.indexes)) +
    OldIndexOps(order.oldIndexes, IndexMap(current.indexes), IndexMap(desired.indexes))
  }

  function TableOps(order: TableOrder, renames: map<string, string>, current: ModelState, desired: ModelState): seq<TableOp>
    requires Meaningful(renames, current, desired) && ValidOrder(order, renames, current, desired)
  {
    ColumnOps(order, renames, current, desired) + IndexOps(order, renames, current, desired)
  }

  // ---------------------------------------------------------------- the diff of a schema

  datatype Order = Order(created: seq<string>, dropped: seq<string>, altered: seq<string>, tables: map<string, TableOrder>)

  function CreateOps(order: seq<string>, current: SchemaState): seq<Op>
    decreases |order|
  {
    if order == [] then []
    else
      var m := order[|order| - 1];
      CreateOps(order[..|order| - 1], current) + (if m in current then [] else [CreateTable(m)])
  }

  function DropTableOps(order: seq<string>, desired: SchemaState): seq<Op>
    decreases |order|
  {
    if order == [] then []
    else
      var m := order[|order| - 1];
      DropTableOps(order[..|order| - 1], desired) + (if m in desired then [] else [DropTable(m)])
  }

  function OnTable(m: string, ops: seq<TableOp>): (r: seq<Op>)
    ensures |r| == |ops| && forall i :: 0 <= i < |r| ==> r[i] == AlterTable(m, ops[i])
  {
    seq(|ops|, i requires 0 <= i < |ops| => AlterTable(m, ops[i]))
  }

  /** No field IDs known for a model means no renames. */
  function RenamesOf(m: string, order: Order, fims: map<string, FieldIds>, current: ModelState, desired: ModelState): map<string, string> {
    if m in fims && m in order.tables then DetectRenames(order.tables[m].ids, fims[m], current, desired) else map[]
  }

  ghost predicate ValidOrders(order: Order, fims: map<string, FieldIds>, current: SchemaState, desired: SchemaState) {
    && Enumerates(order.created, desired.Keys) && Enumerates(order.dropped, current.Keys) && Enumerates(order.altered, desired.Keys)
    && forall m :: m in desired && m in current ==>
      && m in order.tables
      && (m in fims ==> Enumerates(order.tables[m].ids, fims[m].oldById.Keys))
      && ValidOrder(order.tables[m], RenamesOf(m, order, fims, current[m], desired[m]), current[m], desired[m])
  }

  lemma {:induction false} RenamesMeaningful(m: string, order: Order, fims: map<string, FieldIds>, current: ModelState, desired: ModelState)
    ensures Meaningful(RenamesOf(m, order, fims, current, desired), current, desired)
  {
    if m in fims && m in order.tables {
      DetectedAreMeaningful(order.tables[m].ids, fims[m], current, desired);
    }
  }

  /** The operations on a table that stays, in the order the loops happen to meet them. */
  function TableChanges(m: string, order: Order, fims: map<string, FieldIds>, current: SchemaState, desired: SchemaState): seq<TableOp>
    requires ValidOrders(order, fims, current, desired) && m in desired && m in current
  {
    RenamesMeaningful(m, order, fims, current[m], desired[m]);
    TableOps(order.tables[m], RenamesOf(m, order, fims, current[m], desired[m]), current[m], desired[m])
  }

  function AlterOps(tables: seq<string>, order: Order, fims: map<string, FieldIds>, current: SchemaState, desired: SchemaState): seq<Op>
    requires ValidOrders(order, fims, current, desired) && forall m :: m in tables ==> m in desired
    decreases |tables|
  {
    if tables == [] then []
    else
      var m := tables[|tables| - 1];
      AlterOps(tables[..|tables| - 1], order, fims, current, desired) +
      (if m !in current then [] else OnTable(m, TableChanges(m, order, fims, current, desired)))
  }

  function Diff(order: Order, fims: map<string, FieldIds>, current: SchemaState, desired: SchemaState): seq<Op>
    requires ValidOrders(order, fims, current, desired)
  {
    CreateOps(order.created, current) +
    (DropTableOps(order.dropped, desired) + AlterOps(order.altered, order, fims, current, desired))
  }
}
