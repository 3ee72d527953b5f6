/**
 Whole schemas: executing the diff is executing the diff of every table, and it migrates the database
 under every order exactly when the renames of every table are clean.
 */
module SchemaMigrations {
  import opened Wrappers
  import opened SchemaDiff
  import opened MigrationProofs
  import opened MigrationResults

  // ---------------------------------------------------------------- executing the operations of a schema

  lemma {:induction false} ExecuteOpsConcat(db: Database, a: seq<Op>, b: seq<Op>, desired: SchemaState)
    ensures ExecuteOps(db, a + b, desired) ==
      match ExecuteOps(db, a, desired) case None => None case Some(db') => ExecuteOps(db', b, desired)
    decreases |a|
  {
    hide ExecuteOp;
    if a == [] {
      assert a + b == b;
    } else {
      assert (a + b)[1..] == a[1..] + b;
      match ExecuteOp(db, a[0], desired)
      case None =>
      case Some(db') => ExecuteOpsConcat(db', a[1..], b, desired);
    }
  }

  lemma {:induction false} ExecuteSingle(db: Database, op: Op, desired: SchemaState)
    ensures ExecuteOps(db, [op], desired) == ExecuteOp(db, op, desired)
  {
    hide ExecuteOp;
    match ExecuteOp(db, op, desired)
    case None =>
    case Some(db') => assert ExecuteOps(db', [op][1..], desired) == Some(db');
  }

  lemma {:induction false} CreatePhase(db: Database, order: seq<string>, current: SchemaState, desired: SchemaState)
    requires Distinct(order) && forall m :: m in order ==> m in desired
    requires db.Keys == current.Keys
    ensures var r := ExecuteOps(db, CreateOps(order, current), desired);
      && r.Some?
      && (forall m :: m in r.value <==> m in db || m in order)
      && (forall m :: m in r.value ==> r.value[m] == if m in db then db[m] else TableOf(desired[m]))
    decreases |order|
  {
    hide TableOf;
    if order != [] {
      LastOfOrder(order);
      var front, m := order[..|order| - 1], order[|order| - 1];
      CreatePhase(db, front, current, desired);
      var ops := CreateOps(front, current);
      if m !in current {
        ExecuteOpsConcat(db, ops, [CreateTable(m)], desired);
        ExecuteSingle(ExecuteOps(db, ops, desired).value, CreateTable(m), desired);
      } else {
        assert ops + [] == ops;
      }
    }
  }

  lemma {:induction false} DropTablePhase(db: Database, order: seq<string>, desired: SchemaState)
    requires Distinct(order) && forall m :: m in order ==> m in db
    ensures var r := ExecuteOps(db, DropTableOps(order, desired), desired);
      && r.Some?
      && (forall m :: m in r.value <==> m in db && (m !in order || m in desired))
      && (forall m :: m in r.value ==> r.value[m] == db[m])
    decreases |order|
  {
    if order != [] {
      LastOfOrder(order);
      var front, m := order[..|order| - 1], order[|order| - 1];
      DropTablePhase(db, front, desired);
      var ops := DropTableOps(front, desired);
      if m !in desired {
        ExecuteOpsConcat(db, ops, [DropTable(m)], desired);
        ExecuteSingle(ExecuteOps(db, ops, desired).value, DropTable(m), desired);
      } else {
        assert ops + [] == ops;
      }
    }
  }

  /** The operations on one table touch no other and do to it what they do alone. */
  lemma {:induction false} OnTableExecutes(db: Database, m: string, ops: seq<TableOp>, desired: SchemaState)
    requires m in db
    ensures ExecuteOps(db, OnTable(m, ops), desired) ==
      match ExecuteAll(db[m], ops) case None => None case Some(t) => Some(db[m := t])
    decreases |ops|
  {
    hide Execute;
    if ops == [] {
      assert db[m := db[m]] == db;
    } else {
      assert OnTable(m, ops)[1..] == OnTable(m, ops[1..]);
      match Execute(db[m], ops[0])
      case None =>
      case Some(t) =>
        OnTableExecutes(db[m := t], m, ops[1..], desired);
        match ExecuteAll(t, ops[1..])
        case None =>
        case Some(t') => assert db[m := t][m := t'] == db[m := t'];
    }
  }

  /** What the operations on the table of `m` make of it. */
  ghost function TableResult(m: string, order: Order, fims: map<string, FieldIds>, current: SchemaState, desired: SchemaState): Option<Table>
    requires ValidOrders(order, fims, current, desired) && m in desired && m in current
  {
    ExecuteAll(TableOf(current[m]), TableChanges(m, order, fims, current, desired))
  }

  ghost predicate AllSucceed(tables: seq<string>, order: Order, fims: map<string, FieldIds>, current: SchemaState, desired: SchemaState)
    requires ValidOrders(order, fims, current, desired) && forall m :: m in tables ==> m in desired
  {
    forall m :: m in tables && m in current ==> TableResult(m, order, fims, current, desired).Some?
  }

  /** The tables met so far are as their own operations leave them, the others untouched. */
  ghost predicate TablesAltered(db': Database, db: Database, tables: seq<string>, order: Order, fims: map<string, FieldIds>, current: SchemaState, desired: SchemaState)
    requires ValidOrders(order, fims, current, desired) && forall m :: m in tables ==> m in desired
    requires AllSucceed(tables, order, fims, current, desired)
  {
    && db'.Keys == db.Keys
    && forall m :: m in db ==>
      db'[m] == if m in tables && m in current then TableResult(m, order, fims, current, desired).value else db[m]
  }

  lemma {:induction false} AlterPhase(db: Database, tables: seq<string>, order: Order, fims: map<string, FieldIds>, current: SchemaState, desired: SchemaState)
    requires ValidOrders(order, fims, current, desired) && forall m :: m in tables ==> m in desired
    requires Distinct(tables) && forall m :: m in tables && m in current ==> m in db && db[m] == TableOf(current[m])
    ensures var r := ExecuteOps(db, AlterOps(tables, order, fims, current, desired), desired);
      && (r.Some? <==> AllSucceed(tables, order, fims, current, desired))
      && (r.Some? ==> TablesAltered(r.value, db, tables, order, fims, current, desired))
    decreases |tables|
  {
    hide ValidOrders, TableChanges, OnTable, TableOf, ExecuteAll;
    if tables != [] {
      LastOfOrder(tables);
      var front, m := tables[..|tables| - 1], tables[|tables| - 1];
      AlterPhase(db, front, order, fims, current, desired);
      var ops := AlterOps(front, order, fims, current, desired);
      if m in current {
        var more := OnTable(m, TableChanges(m, order, fims, current, desired));
        ExecuteOpsConcat(db, ops, more, desired);
        if AllSucceed(front, order, fims, current, desired) {
          OnTableExecutes(ExecuteOps(db, ops, desired).value, m, TableChanges(m, order, fims, current, desired), desired);
        }
      } else {
        assert ops + [] == ops;
      }
    }
  }

  // ---------------------------------------------------------------- the migrated database

  ghost predicate CleanAt(m: string, order: Order, fims: map<string, FieldIds>, current: SchemaState, desired: SchemaState)
    requires m in desired && m in current
  {
    Clean(RenamesOf(m, order, fims, current[m], desired[m]), current[m], desired[m])
  }

  ghost predicate AllClean(order: Order, fims: map<string, FieldIds>, current: SchemaState, desired: SchemaState) {
    forall m :: m in desired && m in current ==> CleanAt(m, order, fims, current, desired)
  }

  ghost predicate MigratedAt(t: Table, m: string, order: Order, fims: map<string, FieldIds>, current: SchemaState, desired: SchemaState)
    requires m in desired && m in current
  {
    && Meaningful(RenamesOf(m, order, fims, current[m], desired[m]), current[m], desired[m])
    && Migrated(t, RenamesOf(m, order, fims, current[m], desired[m]), current[m], desired[m])
  }

  /** Every desired table and no other; new ones as declared, the others migrated. */
  ghost predicate DatabaseMigrated(db: Database, order: Order, fims: map<string, FieldIds>, current: SchemaState, desired: SchemaState) {
    && db.Keys == desired.Keys
    && forall m :: m in desired ==>
      if m in current then MigratedAt(db[m], m, order, fims, current, desired) else db[m] == TableOf(desired[m])
  }

  ghost predicate DiffMigrates(order: Order, fims: map<string, FieldIds>, current: SchemaState, desired: SchemaState)
    requires ValidOrders(order, fims, current, desired)
  {
    var r := ExecuteOps(DatabaseOf(current), Diff(order, fims, current, desired), desired);
    r.Some? && DatabaseMigrated(r.value, order, fims, current, desired)
  }

  /** After creating and dropping tables: every desired table, those that stay as they were. */
  ghost predicate TablesReady(db: Database, current: SchemaState, desired: SchemaState) {
    && db.Keys == desired.Keys
    && forall m :: m in desired ==> db[m] == if m in current then TableOf(current[m]) else TableOf(desired[m])
  }

  lemma {:induction false} TablesCreatedAndDropped(created: seq<string>, dropped: seq<string>, current: SchemaState, desired: SchemaState)
    requires Enumerates(created, desired.Keys) && Enumerates(dropped, current.Keys)
    ensures var r := ExecuteOps(DatabaseOf(current), CreateOps(created, current) + DropTableOps(dropped, desired), desired);
      r.Some? && TablesReady(r.value, current, desired)
  {
    assert Distinct(created) && Distinct(dropped);
    hide CreateOps, DropTableOps, TableOf, ExecuteOps, Distinct;
    var db := DatabaseOf(current);
    CreatePhase(db, created, current, desired);
    var db1 := ExecuteOps(db, CreateOps(created, current), desired).value;
    DropTablePhase(db1, dropped, desired);
    ExecuteOpsConcat(db, CreateOps(created, current), DropTableOps(dropped, desired), desired);
  }

  /** Executing what follows ends as the operations of every staying table end on their own. */
  ghost predicate TablesExecuted(r: Option<Database>, order: Order, fims: map<string, FieldIds>, current: SchemaState, desired: SchemaState)
    requires ValidOrders(order, fims, current, desired)
  {
    && (r.Some? <==> forall m :: m in desired && m in current ==> TableResult(m, order, fims, current, desired).Some?)
    && (r.Some? ==>
      && r.value.Keys == desired.Keys
      && forall m :: m in desired ==>
        r.value[m] == if m in current then TableResult(m, order, fims, current, desired).value else TableOf(desired[m]))
  }

  lemma {:induction false} StayingTablesAltered(db: Database, order: Order, fims: map<string, FieldIds>, current: SchemaState, desired: SchemaState)
    requires ValidOrders(order, fims, current, desired) && TablesReady(db, current, desired)
    ensures TablesExecuted(ExecuteOps(db, AlterOps(order.altered, order, fims, current, desired), desired), order, fims, current, desired)
  {
    assert Distinct(order.altered) && forall m :: m in order.altered <==> m in desired;
    hide ValidOrders, AlterOps, TableOf, ExecuteOps, TableResult, Distinct;
    AlterPhase(db, order.altered, order, fims, current, desired);
  }

  lemma {:induction false} ExecuteThree(db: Database, a: seq<Op>, b: seq<Op>, c: seq<Op>, desired: SchemaState)
    ensures ExecuteOps(db, a + (b + c), desired) ==
      match ExecuteOps(db, a + b, desired) case None => None case Some(db') => ExecuteOps(db', c, desired)
  {
    hide ExecuteOps;
    assert a + (b + c) == (a + b) + c;
    ExecuteOpsConcat(db, a + b, c, desired);
  }

  /** Executing the whole diff is executing the diff of every table that stays. */
  lemma {:induction false} DiffExecutes(order: Order, fims: map<string, FieldIds>, current: SchemaState, desired: SchemaState)
    requires ValidOrders(order, fims, current, desired)
    ensures TablesExecuted(ExecuteOps(DatabaseOf(current), Diff(order, fims, current, desired), desired), order, fims, current, desired)
  {
    assert forall m :: m in order.altered ==> m in desired;
    hide Enumerates, CreateOps, DropTableOps, AlterOps, TableOf, DatabaseOf, ExecuteOps, TableResult, TablesReady, TablesExecuted, ValidOrder, RenamesOf;
    var ops1, ops2, ops3 := CreateOps(order.created, current), DropTableOps(order.dropped, desired),
      AlterOps(order.altered, order, fims, current, desired);
    TablesCreatedAndDropped(order.created, order.dropped, current, desired);
    StayingTablesAltered(ExecuteOps(DatabaseOf(current), ops1 + ops2, desired).value, order, fims, current, desired);
    ExecuteThree(DatabaseOf(current), ops1, ops2, ops3, desired);
  }

  /** With clean renames the diff migrates the database, in whatever order the maps are ranged over. */
  lemma {:induction false} CleanDiffMigrates(order: Order, fims: map<string, FieldIds>, current: SchemaState, desired: SchemaState)
    requires ValidOrders(order, fims, current, desired)
    requires AllClean(order, fims, current, desired)
    ensures DiffMigrates(order, fims, current, desired)
  {
    forall m | m in desired && m in current
      ensures var r := TableResult(m, order, fims, current, desired); r.Some? && MigratedAt(r.value, m, order, fims, current, desired)
    {
      CleanTableMigrates(m, order, fims, current, desired);
    }
    DiffExecutes(order, fims, current, desired);
    hide ValidOrders, TableResult, MigratedAt, TableOf, ExecuteOps, Diff;
  }

  lemma {:induction false} CleanTableMigrates(m: string, order: Order, fims: map<string, FieldIds>, current: SchemaState, desired: SchemaState)
    requires ValidOrders(order, fims, current, desired)
    requires m in desired && m in current && CleanAt(m, order, fims, current, desired)
    ensures var r := TableResult(m, order, fims, current, desired); r.Some? && MigratedAt(r.value, m, order, fims, current, desired)
  {
    hide ExecuteAll, TableOps, Migrated, Clean, RenamesOf, ValidOrder, Meaningful;
    RenamesMeaningful(m, order, fims, current[m], desired[m]);
    TableMigrates(order.tables[m], RenamesOf(m, order, fims, current[m], desired[m]), current[m], desired[m]);
  }

  /** The two runs detect the same renames. */
  ghost predicate SameRenames(a: Order, b: Order, fims: map<string, FieldIds>, current: SchemaState, desired: SchemaState) {
    forall m :: m in desired && m in current ==>
      RenamesOf(m, a, fims, current[m], desired[m]) == RenamesOf(m, b, fims, current[m], desired[m])
  }

  /** Exactly then: with an unclean rename some order of the loops makes the migration fail or go wrong. */
  lemma {:induction false} DiffMigratesIffClean(order: Order, fims: map<string, FieldIds>, current: SchemaState, desired: SchemaState)
    requires ValidOrders(order, fims, current, desired)
    ensures AllClean(order, fims, current, desired) <==>
      forall o :: ValidOrders(o, fims, current, desired) && SameRenames(o, order, fims, current, desired) ==> DiffMigrates(o, fims, current, desired)
  {
    hide ValidOrders, DiffMigrates, CleanAt, RenamesOf;
    if AllClean(order, fims, current, desired) {
      forall o | ValidOrders(o, fims, current, desired) && SameRenames(o, order, fims, current, desired)
        ensures DiffMigrates(o, fims, current, desired)
      {
        SameRenamesSameClean(o, order, fims, current, desired);
        CleanDiffMigrates(o, fims, current, desired);
      }
    } else {
      var m :| m in desired && m in current && !CleanAt(m, order, fims, current, desired);
      var o := UncleanFails(m, order, fims, current, desired);
    }
  }

  lemma {:induction false} SameRenamesSameClean(o: Order, order: Order, fims: map<string, FieldIds>, current: SchemaState, desired: SchemaState)
    requires SameRenames(o, order, fims, current, desired) && AllClean(order, fims, current, desired)
    ensures AllClean(o, fims, current, desired)
  {
    hide Clean, RenamesOf;
  }

  lemma {:induction false} UncleanFails(m: string, order: Order, fims: map<string, FieldIds>, current: SchemaState, desired: SchemaState)
    returns (o: Order)
    requires ValidOrders(order, fims, current, desired)
    requires m in desired && m in current && !CleanAt(m, order, fims, current, desired)
    ensures ValidOrders(o, fims, current, desired) && SameRenames(o, order, fims, current, desired)
    ensures !DiffMigrates(o, fims, current, desired)
  {
    var renames := RenamesOf(m, order, fims, current[m], desired[m]);
    RenamesMeaningful(m, order, fims, current[m], desired[m]);
    var table := FailingOrder(renames, current[m], desired[m]);
    o := Reordered(order, m, table, fims, current, desired);
    DiffExecutes(o, fims, current, desired);
    hide Diff, ExecuteOps, ValidOrders, ValidOrder, Migrated, TableOps, Meaningful, ExecuteAll, RenamesOf, TableOf;
  }

  lemma {:induction false} FailingOrder(renames: map<string, string>, current: ModelState, desired: ModelState) returns (order: TableOrder)
    requires Meaningful(renames, current, desired) && !Clean(renames, current, desired)
    ensures ValidOrder(order, renames, current, desired) && !Succeeds(order, renames, current, desired)
  {
    hide Meaningful, Clean, ValidOrder, Succeeds;
    MigratesIffClean(renames, current, desired);
    order :| ValidOrder(order, renames, current, desired) && !Succeeds(order, renames, current, desired);
  }

  /** The loops over one table ordered differently, the detection of its renames unchanged. */
  lemma {:induction false} Reordered(order: Order, m: string, table: TableOrder, fims: map<string, FieldIds>, current: SchemaState, desired: SchemaState)
    returns (o: Order)
    requires ValidOrders(order, fims, current, desired) && m in desired && m in current
    requires ValidOrder(table, RenamesOf(m, order, fims, current[m], desired[m]), current[m], desired[m])
    ensures ValidOrders(o, fims, current, desired) && SameRenames(o, order, fims, current, desired)
    ensures m in o.tables && o.tables[m] == table.(ids := order.tables[m].ids)
  {
    hide Enumerates, DetectRenames, IndexMap;
    var t' := table.(ids := order.tables[m].ids);
    o := order.(tables := order.tables[m := t']);
    assert ValidOrder(t', RenamesOf(m, order, fims, current[m], desired[m]), current[m], desired[m]);
    forall n | n in desired && n in current
      ensures RenamesOf(n, o, fims, current[n], desired[n]) == RenamesOf(n, order, fims, current[n], desired[n])
    {
    }
  }
}
