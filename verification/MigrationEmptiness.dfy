/**
 When there is nothing to migrate: the diff is empty exactly when the states agree, and it is empty
 once the database has been migrated.
 */
module MigrationEmptiness {
  import opened Wrappers
  import opened SchemaDiff
  import opened MigrationProofs
  import opened MigrationResults
  import opened SchemaMigrations

  /** Same columns, no change that can be issued, and the same index names. */
  ghost predicate Agree(current: ModelState, desired: ModelState) {
    && current.columns.Keys == desired.columns.Keys
    && (forall c :: c in desired.columns && c in current.columns ==> !ColumnChanged(current.columns[c], desired.columns[c]))
    && IndexMap(current.indexes).Keys == IndexMap(desired.indexes).Keys
  }

  lemma {:induction false} NoRenameOps(order: seq<string>, renames: map<string, string>, current: ModelState, desired: ModelState)
    requires Meaningful(renames, current, desired) && forall o :: o in order ==> o in renames
    ensures RenameOps(order, renames, current, desired) == [] <==> order == []
  {
    hide Meaningful, ColumnChanged;
  }

  lemma {:induction false} NoAddOps(order: seq<string>, current: ModelState, desired: ModelState, renamedNew: set<string>)
    requires forall c :: c in order ==> c in desired.columns
    ensures AddOps(order, current, desired, renamedNew) == [] <==> forall c :: c in order ==> c in current.columns || c in renamedNew
    decreases |order|
  {
    if order != [] {
      LastOfOrder(order);
      NoAddOps(order[..|order| - 1], current, desired, renamedNew);
    }
  }

  lemma {:induction false} NoDropOps(order: seq<string>, current: ModelState, desired: ModelState, renamedOld: set<string>)
    requires forall c :: c in order ==> c in current.columns
    ensures DropOps(order, current, desired, renamedOld) == [] <==> forall c :: c in order ==> c in desired.columns || c in renamedOld
    decreases |order|
  {
    if order != [] {
      LastOfOrder(order);
      NoDropOps(order[..|order| - 1], current, desired, renamedOld);
    }
  }

  lemma {:induction false} NoChangeOps(order: seq<string>, current: ModelState, desired: ModelState, renamedNew: set<string>)
    requires forall c :: c in order ==> c in desired.columns
    ensures ChangeOps(order, current, desired, renamedNew) == [] <==>
      forall c :: c in order && c in current.columns && c !in renamedNew ==> !ColumnChanged(current.columns[c], desired.columns[c])
    decreases |order|
  {
    hide ColumnChanged;
    if order != [] {
      LastOfOrder(order);
      NoChangeOps(order[..|order| - 1], current, desired, renamedNew);
    }
  }

  lemma {:induction false} NoIndexOps(order: seq<string>, order': seq<string>, current: map<string, Index>, desired: map<string, Index>)
    requires forall n :: n in order ==> n in desired
    requires forall n :: n in order' ==> n in current
    ensures NewIndexOps(order, current, desired) == [] <==> forall n :: n in order ==> n in current
    ensures OldIndexOps(order', current, desired) == [] <==> forall n :: n in order' ==> n in desired
    decreases |order| + |order'|
  {
    if order != [] {
      LastOfOrder(order);
      NoIndexOps(order[..|order| - 1], order', current, desired);
    } else if order' != [] {
      LastOfOrder(order');
      NoIndexOps(order, order'[..|order'| - 1], current, desired);
    }
  }

  /** The diff of a table is empty exactly when its states agree and nothing was renamed. */
  lemma {:induction false} TableUnchangedIff(order: TableOrder, renames: map<string, string>, current: ModelState, desired: ModelState)
    requires Meaningful(renames, current, desired) && ValidOrder(order, renames, current, desired)
    ensures TableOps(order, renames, current, desired) == [] <==> renames == map[] && Agree(current, desired)
  {
    hide RenameOps, AddOps, DropOps, ChangeOps, NewIndexOps, OldIndexOps, IndexMap, ColumnChanged, Meaningful;
    NoRenameOps(order.renames, renames, current, desired);
    NoAddOps(order.desired, current, desired, Targets(renames));
    NoDropOps(order.current, current, desired, renames.Keys);
    NoChangeOps(order.changed, current, desired, Targets(renames));
    NoIndexOps(order.newIndexes, order.oldIndexes, IndexMap(current.indexes), IndexMap(desired.indexes));
    RenamesListed(order, renames, current, desired);
    if renames == map[] {
      assert Targets(renames) == {};
    }
  }

  lemma {:induction false} RenamesListed(order: TableOrder, renames: map<string, string>, current: ModelState, desired: ModelState)
    requires ValidOrder(order, renames, current, desired)
    ensures order.renames == [] <==> renames == map[]
    ensures forall o :: o in order.renames <==> o in renames
  {
    if order.renames != [] {
      assert order.renames[0] in order.renames;
    }
    if renames != map[] {
      assert renames.Keys != {};
      var o :| o in renames;
    }
  }

  /** A clean rename needs a column that is not desired: where the states agree there is none. */
  lemma {:induction false} AgreeingHaveNoRenames(renames: map<string, string>, current: ModelState, desired: ModelState)
    requires Meaningful(renames, current, desired) && Clean(renames, current, desired) && Agree(current, desired)
    ensures renames == map[]
  {
    hide IndexMap, ColumnChanged;
    assert forall o :: o !in renames;
    assert renames.Keys == {};
  }

  ghost predicate SchemasAgree(current: SchemaState, desired: SchemaState) {
    && current.Keys == desired.Keys
    && forall m :: m in desired && m in current ==> Agree(current[m], desired[m])
  }

  lemma {:induction false} NoCreateOps(order: seq<string>, current: SchemaState)
    ensures CreateOps(order, current) == [] <==> forall m :: m in order ==> m in current
    decreases |order|
  {
    if order != [] {
      LastOfOrder(order);
      NoCreateOps(order[..|order| - 1], current);
    }
  }

  lemma {:induction false} NoDropTableOps(order: seq<string>, desired: SchemaState)
    ensures DropTableOps(order, desired) == [] <==> forall m :: m in order ==> m in desired
    decreases |order|
  {
    if order != [] {
      LastOfOrder(order);
      NoDropTableOps(order[..|order| - 1], desired);
    }
  }

  lemma {:induction false} NoAlterOps(tables: seq<string>, order: Order, fims: map<string, FieldIds>, current: SchemaState, desired: SchemaState)
    requires ValidOrders(order, fims, current, desired) && forall m :: m in tables ==> m in desired
    ensures AlterOps(tables, order, fims, current, desired) == [] <==>
      forall m :: m in tables && m in current ==> TableChanges(m, order, fims, current, desired) == []
    decreases |tables|
  {
    hide ValidOrders, TableChanges;
    if tables != [] {
      LastOfOrder(tables);
      NoAlterOps(tables[..|tables| - 1], order, fims, current, desired);
    }
  }

  /** With clean renames the diff is empty exactly when the schemas agree already. */
  lemma {:induction false} EmptyIffAgree(order: Order, fims: map<string, FieldIds>, current: SchemaState, desired: SchemaState)
    requires ValidOrders(order, fims, current, desired) && AllClean(order, fims, current, desired)
    ensures Diff(order, fims, current, desired) == [] <==> SchemasAgree(current, desired)
  {
    hide ValidOrders, Agree, TableChanges, CreateOps, DropTableOps, AlterOps, AllClean, CleanAt, Enumerates;
    ModelsListed(order, fims, current, desired);
    forall m | m in desired && m in current
      ensures TableChanges(m, order, fims, current, desired) == [] <==> Agree(current[m], desired[m])
    {
      CleanEach(m, order, fims, current, desired);
      TableUnchanged(m, order, fims, current, desired);
    }
    NoCreateOps(order.created, current);
    NoDropTableOps(order.dropped, desired);
    NoAlterOps(order.altered, order, fims, current, desired);
  }

  lemma {:induction false} ModelsListed(order: Order, fims: map<string, FieldIds>, current: SchemaState, desired: SchemaState)
    requires ValidOrders(order, fims, current, desired)
    ensures forall m :: m in order.created <==> m in desired
    ensures forall m :: m in order.dropped <==> m in current
    ensures forall m :: m in order.altered <==> m in desired
  {
    hide ValidOrder;
  }

  lemma {:induction false} CleanEach(m: string, order: Order, fims: map<string, FieldIds>, current: SchemaState, desired: SchemaState)
    requires AllClean(order, fims, current, desired) && m in desired && m in current
    ensures CleanAt(m, order, fims, current, desired)
  {
    hide CleanAt;
  }

  lemma {:induction false} TableUnchanged(m: string, order: Order, fims: map<string, FieldIds>, current: SchemaState, desired: SchemaState)
    requires ValidOrders(order, fims, current, desired)
    requires m in desired && m in current && CleanAt(m, order, fims, current, desired)
    ensures TableChanges(m, order, fims, current, desired) == [] <==> Agree(current[m], desired[m])
  {
    hide Agree, TableOps, Clean, Meaningful, RenamesOf, ValidOrder;
    var renames := RenamesOf(m, order, fims, current[m], desired[m]);
    RenamesMeaningful(m, order, fims, current[m], desired[m]);
    TableUnchangedIff(order.tables[m], renames, current[m], desired[m]);
    if Agree(current[m], desired[m]) {
      AgreeingHaveNoRenames(renames, current[m], desired[m]);
    }
  }

  /** The migrated database agrees with the desired schema. */
  lemma {:induction false} MigratedAgrees(db: Database, s: SchemaState, order: Order, fims: map<string, FieldIds>, current: SchemaState, desired: SchemaState)
    requires ValidOrders(order, fims, current, desired)
    requires DatabaseMigrated(db, order, fims, current, desired) && DatabaseOf(s) == db
    ensures SchemasAgree(s, desired)
  {
    hide ValidOrders, Agree, MigratedAt, TableOf;
    assert s.Keys == DatabaseOf(s).Keys;
    forall m | m in desired && m in s
      ensures Agree(s[m], desired[m])
    {
      assert db[m] == TableOf(s[m]);
      if m in current {
        MigratedTableAgrees(db[m], s[m], m, order, fims, current, desired);
      } else {
        FreshTableAgrees(s[m], desired[m]);
      }
    }
  }

  lemma {:induction false} FreshTableAgrees(s: ModelState, desired: ModelState)
    requires TableOf(s) == TableOf(desired)
    ensures Agree(s, desired)
  {
    hide IndexMap;
  }

  lemma {:induction false} MigratedTableAgrees(t: Table, s: ModelState, m: string, order: Order, fims: map<string, FieldIds>, current: SchemaState, desired: SchemaState)
    requires m in desired && m in current && MigratedAt(t, m, order, fims, current, desired) && t == TableOf(s)
    ensures Agree(s, desired[m])
  {
    hide IndexMap, RenamesOf;
    var renames := RenamesOf(m, order, fims, current[m], desired[m]);
    forall c | c in desired[m].columns ensures !ColumnChanged(s.columns[c], desired[m].columns[c]) {
      if c in Targets(renames) {
        var o :| o in renames && renames[o] == c;
      }
    }
  }

  /** Without known field IDs no rename is detected. */
  lemma {:induction false} NoIdsAllClean(order: Order, current: SchemaState, desired: SchemaState)
    ensures AllClean(order, map[], current, desired)
  {
  }

  /** Migrating is done once: the diff of the migrated database is empty. */
  lemma {:induction false} SecondDiffEmpty(db: Database, s: SchemaState, order: Order, fims: map<string, FieldIds>, current: SchemaState, desired: SchemaState,
                                           again: Order)
    requires ValidOrders(order, fims, current, desired)
    requires DatabaseMigrated(db, order, fims, current, desired) && DatabaseOf(s) == db
    requires ValidOrders(again, map[], s, desired)
    ensures Diff(again, map[], s, desired) == []
  {
    hide ValidOrders, DatabaseMigrated, DatabaseOf, AllClean, SchemasAgree, Diff;
    MigratedAgrees(db, s, order, fims, current, desired);
    NoIdsAllClean(again, s, desired);
    EmptyIffAgree(again, map[], s, desired);
  }
}
