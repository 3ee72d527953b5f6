/**
 Why the migration command never detects a rename: the field IDs of two locks of one history never
 give one ID to two names. A renamed field loses its column and gets a new one.
 */
module RenameDetection {
  import opened Wrappers
  import opened SchemaDiff
  import opened MigrationProofs
  import opened MigrationResults
  import opened SchemaMigrations
  import opened LockModel
  import opened LockHistory
  import opened LockCompat
  import opened LockGuarantees
  import opened LockAcceptance

  // ---------------------------------------------------------------- field IDs from the lock

  /** Names by ID, in the order the lock's fields are ranged over; `column` turns a field name into a column name. */
  function ById(order: seq<string>, fields: map<string, nat>, column: string -> string): map<nat, string>
    requires forall f :: f in order ==> f in fields
    decreases |order|
  {
    if order == [] then map[]
    else
      var f := order[|order| - 1];
      ById(order[..|order| - 1], fields, column)[fields[f] := column(f)]
  }

  /** The IDs of a model in an old and a new lock; only the fields in `known` are looked up in the old one. */
  ghost predicate BuiltFrom(fim: FieldIds, old_: map<string, nat>, new_: map<string, nat>, known: set<string>, column: string -> string) {
    exists a: seq<string>, b: seq<string> ::
      && (forall f :: f in a <==> f in old_ && f in known) && (forall f :: f in b <==> f in new_)
      && fim == FieldIds(ById(a, old_, column), ById(b, new_, column))
  }

  lemma {:induction false} ByIdNames(order: seq<string>, fields: map<string, nat>, column: string -> string, id: nat) returns (f: string)
    requires forall f :: f in order ==> f in fields
    requires id in ById(order, fields, column)
    ensures f in fields && fields[f] == id && ById(order, fields, column)[id] == column(f)
    decreases |order|
  {
    LastOfOrder(order);
    f := order[|order| - 1];
    if fields[f] != id {
      f := ByIdNames(order[..|order| - 1], fields, column, id);
    }
  }

  /** Detection finds something exactly when some ID has two names, an old column and a desired one. */
  lemma {:induction false} DetectsIff(ids: seq<nat>, fim: FieldIds, current: ModelState, desired: ModelState)
    ensures DetectRenames(ids, fim, current, desired) != map[] <==> exists id :: id in ids && IsRename(fim, id, current, desired)
    decreases |ids|
  {
    hide IsRename;
    if ids != [] {
      LastOfOrder(ids);
      var front, id := ids[..|ids| - 1], ids[|ids| - 1];
      DetectsIff(front, fim, current, desired);
      if IsRename(fim, id, current, desired) {
        NamesOfRename(fim, id, current, desired);
        assert fim.oldById[id] in DetectRenames(ids, fim, current, desired);
      }
    }
  }

  lemma {:induction false} NamesOfRename(fim: FieldIds, id: nat, current: ModelState, desired: ModelState)
    requires IsRename(fim, id, current, desired)
    ensures id in fim.oldById && id in fim.newById
  {
  }

  /** Between any two locks of one history, no field ever counts as renamed. */
  lemma {:induction false} NoRenamesInOneHistory(steps: seq<Step>, i: nat, model: string, fim: FieldIds, known: set<string>, column: string -> string,
                                                 ids: seq<nat>, current: ModelState, desired: ModelState)
    requires i <= |steps|
    requires model in After(steps[..i]).models && model in After(steps).models
    requires BuiltFrom(fim, After(steps[..i]).models[model].fields, After(steps).models[model].fields, known, column)
    ensures DetectRenames(ids, fim, current, desired) == map[]
    decreases |ids|
  {
    hide After, BuiltFrom;
    if ids != [] {
      NoRenamesInOneHistory(steps, i, model, fim, known, column, ids[..|ids| - 1], current, desired);
      SameColumn(steps, i, model, fim, known, column, ids[|ids| - 1]);
    }
  }

  lemma {:induction false} SameColumn(steps: seq<Step>, i: nat, model: string, fim: FieldIds, known: set<string>, column: string -> string, id: nat)
    requires i <= |steps|
    requires model in After(steps[..i]).models && model in After(steps).models
    requires BuiltFrom(fim, After(steps[..i]).models[model].fields, After(steps).models[model].fields, known, column)
    ensures id in fim.oldById && id in fim.newById ==> fim.oldById[id] == fim.newById[id]
  {
    hide After, ById;
    var old_, new_ := After(steps[..i]).models[model].fields, After(steps).models[model].fields;
    var a, b :| (forall f :: f in a <==> f in old_ && f in known) && (forall f :: f in b <==> f in new_) &&
      fim == FieldIds(ById(a, old_, column), ById(b, new_, column));
    if id in fim.oldById && id in fim.newById {
      var f := ByIdNames(a, old_, column, id);
      var g := ByIdNames(b, new_, column, id);
      FieldIdsNeverReused(steps, i, model, f, g, id);
    }
  }

  /** The field IDs the migration command passes: every model's come from locks of one history. */
  ghost predicate FromHistory(fims: map<string, FieldIds>, steps: seq<Step>, i: nat, column: string -> string)
    requires i <= |steps|
  {
    forall m :: m in fims ==>
      && m in After(steps[..i]).models && m in After(steps).models
      && exists known :: BuiltFrom(fims[m], After(steps[..i]).models[m].fields, After(steps).models[m].fields, known, column)
  }

  // ---------------------------------------------------------------- what happens instead

  lemma {:induction false} AddsColumn(order: seq<string>, current: ModelState, desired: ModelState, renamedNew: set<string>, c: string)
    requires forall x :: x in order ==> x in desired.columns
    requires c in order && c !in current.columns && c !in renamedNew
    ensures AddColumn(c, desired.columns[c]) in AddOps(order, current, desired, renamedNew)
    decreases |order|
  {
    if c != order[|order| - 1] {
      LastOfOrder(order);
      AddsColumn(order[..|order| - 1], current, desired, renamedNew, c);
    }
  }

  lemma {:induction false} DropsColumn(order: seq<string>, current: ModelState, desired: ModelState, renamedOld: set<string>, c: string)
    requires forall x :: x in order ==> x in current.columns
    requires c in order && c !in desired.columns && c !in renamedOld
    ensures DropColumn(c, current.columns[c]) in DropOps(order, current, desired, renamedOld)
    decreases |order|
  {
    if c != order[|order| - 1] {
      LastOfOrder(order);
      DropsColumn(order[..|order| - 1], current, desired, renamedOld, c);
    }
  }

  /** Every column that goes is dropped, every column that comes is added. */
  ghost predicate DropsAndAdds(ops: seq<TableOp>, current: ModelState, desired: ModelState) {
    && (forall c :: c in current.columns && c !in desired.columns ==> DropColumn(c, current.columns[c]) in ops)
    && (forall c :: c in desired.columns && c !in current.columns ==> AddColumn(c, desired.columns[c]) in ops)
  }

  lemma {:induction false} NothingRenamedDropsAndAdds(order: TableOrder, current: ModelState, desired: ModelState)
    requires ValidOrder(order, map[], current, desired)
    ensures DropsAndAdds(TableOps(order, map[], current, desired), current, desired)
  {
    hide AddOps, DropOps, ChangeOps, RenameOps, IndexOps;
    var none: map<string, string> := map[];
    var ops := TableOps(order, none, current, desired);
    assert Targets(none) == {};
    forall c | c in current.columns && c !in desired.columns ensures DropColumn(c, current.columns[c]) in ops {
      DropsColumn(order.current, current, desired, none.Keys, c);
    }
    forall c | c in desired.columns && c !in current.columns ensures AddColumn(c, desired.columns[c]) in ops {
      AddsColumn(order.desired, current, desired, Targets(none), c);
    }
  }

  /** The operations on a table that stays are in the diff of the schema. */
  lemma {:induction false} TableChangesInDiff(m: string, op: TableOp, order: Order, fims: map<string, FieldIds>, current: SchemaState, desired: SchemaState)
    requires ValidOrders(order, fims, current, desired) && m in desired && m in current
    requires op in TableChanges(m, order, fims, current, desired)
    ensures AlterTable(m, op) in Diff(order, fims, current, desired)
  {
    assert forall x :: x in order.altered <==> x in desired;
    hide ValidOrders, CreateOps, DropTableOps, AlterOps, TableChanges;
    TableChangesInAlter(order.altered, m, op, order, fims, current, desired);
  }

  lemma {:induction false} TableChangesInAlter(tables: seq<string>, m: string, op: TableOp, order: Order, fims: map<string, FieldIds>, current: SchemaState,
                                               desired: SchemaState)
    requires ValidOrders(order, fims, current, desired) && forall x :: x in tables ==> x in desired
    requires m in tables && m in current && op in TableChanges(m, order, fims, current, desired)
    ensures AlterTable(m, op) in AlterOps(tables, order, fims, current, desired)
    decreases |tables|
  {
    hide ValidOrders, TableChanges;
    LastOfOrder(tables);
    var n := |tables| - 1;
    if m == tables[n] {
      var changes := TableChanges(m, order, fims, current, desired);
      var k :| 0 <= k < |changes| && changes[k] == op;
      assert OnTable(m, changes)[k] == AlterTable(m, op);
    } else {
      TableChangesInAlter(tables[..n], m, op, order, fims, current, desired);
    }
  }

  /** In the diff of the schema, every column of a table that stays and is not desired is dropped, and every
      desired column that the table has not is added: that of a renamed field, too. */
  ghost predicate ColumnsDroppedAndAdded(ops: seq<Op>, current: SchemaState, desired: SchemaState) {
    forall m, c :: m in desired && m in current ==>
      && (c in current[m].columns && c !in desired[m].columns ==> AlterTable(m, DropColumn(c, current[m].columns[c])) in ops)
      && (c in desired[m].columns && c !in current[m].columns ==> AlterTable(m, AddColumn(c, desired[m].columns[c])) in ops)
  }

  lemma {:induction false} NoRenameDropsAndAdds(order: Order, fims: map<string, FieldIds>, current: SchemaState, desired: SchemaState)
    requires ValidOrders(order, fims, current, desired)
    requires forall m :: m in desired && m in current ==> RenamesOf(m, order, fims, current[m], desired[m]) == map[]
    ensures ColumnsDroppedAndAdded(Diff(order, fims, current, desired), current, desired)
  {
    hide Diff, TableOps;
    forall m, c | m in desired && m in current
      ensures c in current[m].columns && c !in desired[m].columns ==>
        AlterTable(m, DropColumn(c, current[m].columns[c])) in Diff(order, fims, current, desired)
      ensures c in desired[m].columns && c !in current[m].columns ==>
        AlterTable(m, AddColumn(c, desired[m].columns[c])) in Diff(order, fims, current, desired)
    {
      NoRenameAt(m, order, fims, current, desired);
      if c in current[m].columns && c !in desired[m].columns {
        TableChangesInDiff(m, DropColumn(c, current[m].columns[c]), order, fims, current, desired);
      }
      if c in desired[m].columns && c !in current[m].columns {
        TableChangesInDiff(m, AddColumn(c, desired[m].columns[c]), order, fims, current, desired);
      }
    }
  }

  lemma {:induction false} NoRenameAt(m: string, order: Order, fims: map<string, FieldIds>, current: SchemaState, desired: SchemaState)
    requires ValidOrders(order, fims, current, desired) && m in desired && m in current
    requires RenamesOf(m, order, fims, current[m], desired[m]) == map[]
    ensures DropsAndAdds(TableChanges(m, order, fims, current, desired), current[m], desired[m])
  {
    hide TableOps, DropsAndAdds, ValidOrder, RenamesOf;
    NothingRenamedDropsAndAdds(order.tables[m], current[m], desired[m]);
  }

  /** So every migration the command generates succeeds, no rename is ever detected, and a renamed field
      loses its column and gets a new one. */
  lemma {:induction false} CommandMigrates(steps: seq<Step>, i: nat, column: string -> string,
                                           order: Order, fims: map<string, FieldIds>, current: SchemaState, desired: SchemaState)
    requires i <= |steps| && FromHistory(fims, steps, i, column)
    requires ValidOrders(order, fims, current, desired)
    ensures DiffMigrates(order, fims, current, desired)
    ensures forall m :: m in desired && m in current ==> RenamesOf(m, order, fims, current[m], desired[m]) == map[]
    ensures ColumnsDroppedAndAdded(Diff(order, fims, current, desired), current, desired)
  {
    forall m | m in desired && m in current
      ensures RenamesOf(m, order, fims, current[m], desired[m]) == map[] && CleanAt(m, order, fims, current, desired)
    {
      hide After, DetectRenames, BuiltFrom, ValidOrders, DiffMigrates;
      if m in fims && m in order.tables {
        var known :| BuiltFrom(fims[m], After(steps[..i]).models[m].fields, After(steps).models[m].fields, known, column);
        NoRenamesInOneHistory(steps, i, m, fims[m], known, column, order.tables[m].ids, current[m], desired[m]);
      }
    }
    hide ValidOrders, DiffMigrates, After, RenamesOf, CleanAt, ColumnsDroppedAndAdded, FromHistory;
    CleanDiffMigrates(order, fims, current, desired);
    NoRenameDropsAndAdds(order, fims, current, desired);
  }

  // ---------------------------------------------------------------- a renamed field

  /** Some order in which the loops over one table can run. */
  ghost function SomeTableOrder(ids: set<nat>, renames: map<string, string>, current: ModelState, desired: ModelState): (order: TableOrder)
    ensures ValidOrder(order, renames, current, desired) && Enumerates(order.ids, ids)
  {
    TableOrder(Listing(ids), Listing(renames.Keys), Listing(desired.columns.Keys), Listing(current.columns.Keys), Listing(desired.columns.Keys),
      Listing(IndexMap(desired.indexes).Keys), Listing(IndexMap(current.indexes).Keys))
  }

  /** One model with one field, and its table. */
  function OneField(model: string, f: string): LockModel.Schema {
    [File([Group(model, [FieldDecl(f, "String")])], [], [], [], [], [], [], [], [])]
  }

  const TEXT := Column("TEXT", false, false, false, false, "")

  function OneColumn(model: string, c: string): SchemaState { map[model := ModelState(map[c := TEXT], [])] }

  lemma {:induction false} OneFieldLocked(l: Lock, model: string, f: string)
    requires LockInv(l)
    ensures var u := Update(l, OneField(model, f));
      LockInv(u) && model in u.models && u.models[model].fields.Keys == {f}
  {
    hide LockInv, Update, ModelContract, TypeContract, EventContract, CompleteDeclarations;
    var files := OneField(model, f);
    OneFieldDeclared(model, f);
    UpdateKeeps(l, files);
    SelfCompatibleEntities(l, files);
  }

  lemma {:induction false} OneFieldDeclared(model: string, f: string)
    ensures var files := OneField(model, f);
      CompleteDeclarations(files) && model in ModelContract(files) && Get(ModelContract(files), model, map[]).Keys == {f}
  {
    hide ModelContract, TypeContract, EventContract, Models, Extensions, Types, Events;
    var files := OneField(model, f);
    OneFile(files);
    ContractDeclaresAt(files, model);
    assert files[0].models[..0] == [];
    var fields := [FieldDecl(f, "String")];
    assert fields[0].name in FieldNames(fields);
  }

  /** The field IDs of one model, as the command builds them from two locks. */
  ghost function IdsBetween(old_: map<string, nat>, new_: map<string, nat>, column: string -> string): (fim: FieldIds)
    ensures BuiltFrom(fim, old_, new_, old_.Keys, column)
  {
    FieldIds(ById(Listing(old_.Keys), old_, column), ById(Listing(new_.Keys), new_, column))
  }

  /** It happens: `name` becomes `fullName` in a schema whose lock is kept, and the migration drops the column of
      the one and adds that of the other, whatever the order of the loops. */
  lemma {:induction false} RenamedFieldLosesColumn(model: string, column: string -> string)
    requires column("name") != column("fullName")
    ensures var steps := [UpdateTo(OneField(model, "name")), UpdateTo(OneField(model, "fullName"))];
      var old_, new_ := After(steps[..1]).models, After(steps).models;
      var current, desired := OneColumn(model, column("name")), OneColumn(model, column("fullName"));
      && model in old_ && model in new_ && "name" in old_[model].fields && "fullName" in new_[model].fields
      && var fims := map[model := IdsBetween(old_[model].fields, new_[model].fields, column)];
      && (exists order :: ValidOrders(order, fims, current, desired))
      && forall order :: ValidOrders(order, fims, current, desired) ==>
        var ops := Diff(order, fims, current, desired);
        AlterTable(model, DropColumn(column("name"), TEXT)) in ops && AlterTable(model, AddColumn(column("fullName"), TEXT)) in ops
  {
    hide Update, LockInv, Diff, ValidOrders, BuiltFrom, IdsBetween, ColumnsDroppedAndAdded, DiffMigrates;
    var steps := [UpdateTo(OneField(model, "name")), UpdateTo(OneField(model, "fullName"))];
    TwoUpdates(steps, OneField(model, "name"), OneField(model, "fullName"));
    NewLockInv();
    OneFieldLocked(NEW_LOCK, model, "name");
    OneFieldLocked(After(steps[..1]), model, "fullName");
    hide After;
    var old_, new_ := After(steps[..1]).models, After(steps).models;
    var current, desired := OneColumn(model, column("name")), OneColumn(model, column("fullName"));
    var fims := map[model := IdsBetween(old_[model].fields, new_[model].fields, column)];
    SomeOrder(model, fims[model], current[model], desired[model]);
    forall order | ValidOrders(order, fims, current, desired)
      ensures AlterTable(model, DropColumn(column("name"), TEXT)) in Diff(order, fims, current, desired)
      ensures AlterTable(model, AddColumn(column("fullName"), TEXT)) in Diff(order, fims, current, desired)
    {
      assert FromHistory(fims, steps, 1, column);
      CommandMigrates(steps, 1, column, order, fims, current, desired);
      DroppedAndAddedAt(Diff(order, fims, current, desired), model, column("name"), column("fullName"), current, desired);
    }
  }

  lemma {:induction false} DroppedAndAddedAt(ops: seq<Op>, m: string, c: string, d: string, current: SchemaState, desired: SchemaState)
    requires ColumnsDroppedAndAdded(ops, current, desired) && m in current && m in desired
    requires c in current[m].columns && c !in desired[m].columns && d in desired[m].columns && d !in current[m].columns
    ensures AlterTable(m, DropColumn(c, current[m].columns[c])) in ops && AlterTable(m, AddColumn(d, desired[m].columns[d])) in ops
  {
  }

  lemma {:induction false} TwoUpdates(steps: seq<Step>, a: LockModel.Schema, b: LockModel.Schema)
    requires steps == [UpdateTo(a), UpdateTo(b)]
    ensures After(steps[..1]) == Update(NEW_LOCK, a) && After(steps) == Update(After(steps[..1]), b)
  {
    hide Update;
    var one := steps[..1];
    assert one == [UpdateTo(a)] && one[..0] == [] && steps[..|steps| - 1] == one;
    assert From(NEW_LOCK, one) == Next(From(NEW_LOCK, one[..0]), one[0]);
    assert From(NEW_LOCK, steps) == Next(From(NEW_LOCK, one), steps[1]);
  }

  lemma {:induction false} SomeOrder(m: string, fim: FieldIds, current: ModelState, desired: ModelState)
    ensures exists order :: ValidOrders(order, map[m := fim], map[m := current], map[m := desired])
  {
    hide Enumerates, ValidOrder, DetectRenames;
    var listed := Listing({m});
    var ids := Listing(fim.oldById.Keys);
    var renames := DetectRenames(ids, fim, current, desired);
    var table := SomeTableOrder(fim.oldById.Keys, renames, current, desired).(ids := ids);
    assert ValidOrder(table, renames, current, desired) by { SameButIds(table, fim, renames, current, desired, ids); }
    var order := Order(listed, listed, listed, map[m := table]);
    assert (map[m := current]).Keys == {m} && (map[m := desired]).Keys == {m};
    assert RenamesOf(m, order, map[m := fim], current, desired) == renames;
    assert Enumerates(table.ids, fim.oldById.Keys);
    assert ValidOrders(order, map[m := fim], map[m := current], map[m := desired]);
  }

  lemma {:induction false} SameButIds(table: TableOrder, fim: FieldIds, renames: map<string, string>, current: ModelState, desired: ModelState, ids: seq<nat>)
    requires table == SomeTableOrder(fim.oldById.Keys, renames, current, desired).(ids := ids)
    ensures ValidOrder(table, renames, current, desired)
  {
    hide SomeTableOrder, Enumerates;
  }
}
