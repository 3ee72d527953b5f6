/**
 The diff as the migration engine computes it: loops that take the keys of the maps in any order and
 append operations. Each is proved against the specification for the order its loops met.
 */
module MigrationDiff {
  import opened Wrappers
  import opened SchemaDiff
  import opened MigrationProofs

  /** What a loop over the keys of a map has met so far. */
  ghost predicate Met<T(!new)>(order: seq<T>, keys: set<T>, rest: set<T>) {
    && rest <= keys
    && (forall x :: x in order <==> x in keys && x !in rest)
    && Distinct(order)
  }

  lemma {:induction false} MeetOne<T(!new)>(order: seq<T>, keys: set<T>, rest: set<T>, x: T)
    requires Met(order, keys, rest) && x in rest
    ensures Met(order + [x], keys, rest - {x}) && x !in order
    ensures (order + [x])[..|order|] == order
  {
  }

  lemma {:induction false} MetNone<T(!new)>(keys: set<T>)
    ensures Met([], keys, keys)
  {
  }

  lemma {:induction false} MetAll<T(!new)>(order: seq<T>, keys: set<T>)
    requires Met(order, keys, {})
    ensures Enumerates(order, keys)
  {
  }

  method Detect(fim: FieldIds, current: ModelState, desired: ModelState) returns (renames: map<string, string>)
    ensures exists order :: Enumerates(order, fim.oldById.Keys) && renames == DetectRenames(order, fim, current, desired)
  {
    renames := map[];
    ghost var order: seq<nat> := [];
    var rest := fim.oldById.Keys;
    while rest != {}
      invariant Met(order, fim.oldById.Keys, rest) && renames == DetectRenames(order, fim, current, desired)
      decreases rest
    {
      var id :| id in rest;
      MeetOne(order, fim.oldById.Keys, rest, id);
      order := order + [id];
      rest := rest - {id};
      if id in fim.newById && fim.oldById[id] != fim.newById[id] {
        if fim.oldById[id] in current.columns && fim.newById[id] in desired.columns {
          renames := renames[fim.oldById[id] := fim.newById[id]];
        }
      }
    }
    MetAll(order, fim.oldById.Keys);
  }

  method RenamesSets(renames: map<string, string>) returns (old_: set<string>, new_: set<string>)
    ensures old_ == renames.Keys && new_ == Targets(renames)
  {
    old_, new_ := {}, {};
    var rest := renames.Keys;
    while rest != {}
      invariant rest <= renames.Keys && old_ == renames.Keys - rest
      invariant forall n :: n in new_ <==> exists o :: o in old_ && o in renames && renames[o] == n
      decreases rest
    {
      var o :| o in rest;
      rest, old_, new_ := rest - {o}, old_ + {o}, new_ + {renames[o]};
    }
  }

  method DiffRenamedColumns(renames: map<string, string>, current: ModelState, desired: ModelState) returns (ops: seq<TableOp>)
    requires Meaningful(renames, current, desired)
    ensures exists order :: Enumerates(order, renames.Keys) && ops == RenameOps(order, renames, current, desired)
  {
    ops := [];
    ghost var order: seq<string> := [];
    var rest := renames.Keys;
    while rest != {}
      invariant Met(order, renames.Keys, rest) && ops == RenameOps(order, renames, current, desired)
      decreases rest
    {
      var o :| o in rest;
      MeetOne(order, renames.Keys, rest, o);
      order := order + [o];
      rest := rest - {o};
      var old_, new_ := current.columns[o], desired.columns[renames[o]];
      ops := ops + [RenameColumn(o, renames[o], old_, new_)];
      if ColumnChanged(old_, new_) {
        ops := ops + [AlterColumn(renames[o], old_, new_)];
      }
    }
    MetAll(order, renames.Keys);
  }

  method DiffAddedColumns(current: ModelState, desired: ModelState, renamedNew: set<string>) returns (ops: seq<TableOp>)
    ensures exists order :: Enumerates(order, desired.columns.Keys) && ops == AddOps(order, current, desired, renamedNew)
  {
    ops := [];
    ghost var order: seq<string> := [];
    var rest := desired.columns.Keys;
    while rest != {}
      invariant Met(order, desired.columns.Keys, rest) && ops == AddOps(order, current, desired, renamedNew)
      decreases rest
    {
      var c :| c in rest;
      MeetOne(order, desired.columns.Keys, rest, c);
      order := order + [c];
      rest := rest - {c};
      if !(c in current.columns || c in renamedNew) {
        ops := ops + [AddColumn(c, desired.columns[c])];
      }
    }
    MetAll(order, desired.columns.Keys);
  }

  method DiffDroppedColumns(current: ModelState, desired: ModelState, renamedOld: set<string>) returns (ops: seq<TableOp>)
    ensures exists order :: Enumerates(order, current.columns.Keys) && ops == DropOps(order, current, desired, renamedOld)
  {
    ops := [];
    ghost var order: seq<string> := [];
    var rest := current.columns.Keys;
    while rest != {}
      invariant Met(order, current.columns.Keys, rest) && ops == DropOps(order, current, desired, renamedOld)
      decreases rest
    {
      var c :| c in rest;
      MeetOne(order, current.columns.Keys, rest, c);
      order := order + [c];
      rest := rest - {c};
      if !(c in desired.columns || c in renamedOld) {
        ops := ops + [DropColumn(c, current.columns[c])];
      }
    }
    MetAll(order, current.columns.Keys);
  }

  method DiffChangedColumns(current: ModelState, desired: ModelState, renamedNew: set<string>) returns (ops: seq<TableOp>)
    ensures exists order :: Enumerates(order, desired.columns.Keys) && ops == ChangeOps(order, current, desired, renamedNew)
  {
    ops := [];
    ghost var order: seq<string> := [];
    var rest := desired.columns.Keys;
    while rest != {}
      invariant Met(order, desired.columns.Keys, rest) && ops == ChangeOps(order, current, desired, renamedNew)
      decreases rest
    {
      var c :| c in rest;
      MeetOne(order, desired.columns.Keys, rest, c);
      order := order + [c];
      rest := rest - {c};
      if c in current.columns && c !in renamedNew {
        if ColumnChanged(current.columns[c], desired.columns[c]) {
          ops := ops + [AlterColumn(c, current.columns[c], desired.columns[c])];
        }
      }
    }
    MetAll(order, desired.columns.Keys);
  }

  method IndexByName(indexes: seq<Index>) returns (byName: map<string, Index>)
    ensures byName == IndexMap(indexes)
  {
    byName := map[];
    for i := 0 to |indexes|
      invariant byName == IndexMap(indexes[..i])
    {
      assert indexes[..i + 1][..i] == indexes[..i];
      byName := byName[indexes[i].name := indexes[i]];
    }
    assert indexes[..|indexes|] == indexes;
  }

  method AddedIndexes(cur: map<string, Index>, des: map<string, Index>) returns (ops: seq<TableOp>)
    ensures exists order :: Enumerates(order, des.Keys) && ops == NewIndexOps(order, cur, des)
  {
    ops := [];
    ghost var order: seq<string> := [];
    var rest := des.Keys;
    while rest != {}
      invariant Met(order, des.Keys, rest) && ops == NewIndexOps(order, cur, des)
      decreases rest
    {
      var n :| n in rest;
      MeetOne(order, des.Keys, rest, n);
      order := order + [n];
      rest := rest - {n};
      if n !in cur {
        ops := ops + [AddIndex(des[n])];
      }
    }
    MetAll(order, des.Keys);
  }

  method DroppedIndexes(cur: map<string, Index>, des: map<string, Index>) returns (ops: seq<TableOp>)
    ensures exists order :: Enumerates(order, cur.Keys) && ops == OldIndexOps(order, cur, des)
  {
    ops := [];
    ghost var order: seq<string> := [];
    var rest := cur.Keys;
    while rest != {}
      invariant Met(order, cur.Keys, rest) && ops == OldIndexOps(order, cur, des)
      decreases rest
    {
      var n :| n in rest;
      MeetOne(order, cur.Keys, rest, n);
      order := order + [n];
      rest := rest - {n};
      if n !in des {
        ops := ops + [DropIndex(cur[n])];
      }
    }
    MetAll(order, cur.Keys);
  }

  method DiffIndexes(current: ModelState, desired: ModelState) returns (ops: seq<TableOp>)
    ensures exists n, o ::
      && Enumerates(n, IndexMap(desired.indexes).Keys) && Enumerates(o, IndexMap(current.indexes).Keys)
      && ops == NewIndexOps(n, IndexMap(current.indexes), IndexMap(desired.indexes)) +
                OldIndexOps(o, IndexMap(current.indexes), IndexMap(desired.indexes))
  {
    hide NewIndexOps, OldIndexOps;
    var cur := IndexByName(current.indexes);
    var des := IndexByName(desired.indexes);
    var added := AddedIndexes(cur, des);
    var dropped := DroppedIndexes(cur, des);
    ghost var n: seq<string> :| Enumerates(n, des.Keys) && (added == NewIndexOps(n, cur, des));
    ghost var o: seq<string> :| Enumerates(o, cur.Keys) && (dropped == OldIndexOps(o, cur, des));
    ops := added + dropped;
  }

  /** The renames of a table whose fields have these IDs, if any are known. */
  function Renames(ids: seq<nat>, fim: Option<FieldIds>, current: ModelState, desired: ModelState): map<string, string> {
    match fim case None => map[] case Some(f) => DetectRenames(ids, f, current, desired)
  }

  /** The operations are the diff of the table for this order of its loops. */
  ghost predicate TableDiff(ops: seq<TableOp>, order: TableOrder, fim: Option<FieldIds>, current: ModelState, desired: ModelState) {
    var renames := Renames(order.ids, fim, current, desired);
    && (fim.Some? ==> Enumerates(order.ids, fim.value.oldById.Keys))
    && Meaningful(renames, current, desired) && ValidOrder(order, renames, current, desired)
    && ops == TableOps(order, renames, current, desired)
  }

  /** Columns and then indexes of one table. */
  method DiffTable(fim: Option<FieldIds>, current: ModelState, desired: ModelState) returns (ops: seq<TableOp>)
    ensures exists order :: TableDiff(ops, order, fim, current, desired)
  {
    hide DetectRenames, RenameOps, AddOps, DropOps, ChangeOps, NewIndexOps, OldIndexOps, IndexMap, Targets;
    var renames := map[];
    ghost var ids: seq<nat> := [];
    if fim.Some? {
      renames := Detect(fim.value, current, desired);
      ids :| Enumerates(ids, fim.value.oldById.Keys) && renames == DetectRenames(ids, fim.value, current, desired);
      DetectedAreMeaningful(ids, fim.value, current, desired);
    }
    var old_, new_ := RenamesSets(renames);
    var renamed := DiffRenamedColumns(renames, current, desired);
    var added := DiffAddedColumns(current, desired, new_);
    var dropped := DiffDroppedColumns(current, desired, old_);
    var changed := DiffChangedColumns(current, desired, new_);
    var indexes := DiffIndexes(current, desired);
    ops := renamed + added + dropped + changed + indexes;
    Assemble(ids, renames, current, desired, renamed, added, dropped, changed, indexes, fim);
  }

  /** The orders that the loops met make one order of the whole. */
  lemma {:induction false} Assemble(ids: seq<nat>, renames: map<string, string>, current: ModelState, desired: ModelState, renamed: seq<TableOp>,
                                    added: seq<TableOp>, dropped: seq<TableOp>, changed: seq<TableOp>, indexes: seq<TableOp>, fim: Option<FieldIds>)
    requires renames == Renames(ids, fim, current, desired) && Meaningful(renames, current, desired)
    requires fim.Some? ==> Enumerates(ids, fim.value.oldById.Keys)
    requires exists o :: Enumerates(o, renames.Keys) && renamed == RenameOps(o, renames, current, desired)
    requires exists o :: Enumerates(o, desired.columns.Keys) && added == AddOps(o, current, desired, Targets(renames))
    requires exists o :: Enumerates(o, current.columns.Keys) && dropped == DropOps(o, current, desired, renames.Keys)
    requires exists o :: Enumerates(o, desired.columns.Keys) && changed == ChangeOps(o, current, desired, Targets(renames))
    requires exists n, o ::
      && Enumerates(n, IndexMap(desired.indexes).Keys) && Enumerates(o, IndexMap(current.indexes).Keys)
      && indexes == NewIndexOps(n, IndexMap(current.indexes), IndexMap(desired.indexes)) +
                    OldIndexOps(o, IndexMap(current.indexes), IndexMap(desired.indexes))
    ensures exists order :: TableDiff(renamed + added + dropped + changed + indexes, order, fim, current, desired)
  {
    hide DetectRenames, RenameOps, AddOps, DropOps, ChangeOps, NewIndexOps, OldIndexOps, IndexMap, Targets, Renames, Meaningful;
    var o1 :| Enumerates(o1, renames.Keys) && renamed == RenameOps(o1, renames, current, desired);
    var o2 :| Enumerates(o2, desired.columns.Keys) && added == AddOps(o2, current, desired, Targets(renames));
    var o3 :| Enumerates(o3, current.columns.Keys) && dropped == DropOps(o3, current, desired, renames.Keys);
    var o4 :| Enumerates(o4, desired.columns.Keys) && changed == ChangeOps(o4, current, desired, Targets(renames));
    var o5, o6 :| Enumerates(o5, IndexMap(desired.indexes).Keys) && Enumerates(o6, IndexMap(current.indexes).Keys) &&
      indexes == NewIndexOps(o5, IndexMap(current.indexes), IndexMap(desired.indexes)) +
                 OldIndexOps(o6, IndexMap(current.indexes), IndexMap(desired.indexes));
    var order := TableOrder(ids, o1, o2, o3, o4, o5, o6);
    assert renamed + added + dropped + changed == renamed + ((added + dropped) + changed);
    assert TableDiff(renamed + added + dropped + changed + indexes, order, fim, current, desired);
  }

  // ---------------------------------------------------------------- whole schemas

  method AlteredTable(m: string, ops: seq<TableOp>) returns (r: seq<Op>)
    ensures r == OnTable(m, ops)
  {
    r := [];
    for i := 0 to |ops|
      invariant |r| == i && forall k :: 0 <= k < i ==> r[k] == AlterTable(m, ops[k])
    {
      r := r + [AlterTable(m, ops[i])];
    }
  }

  /** The operations of the tables met, from what the diff of each one gave. */
  ghost function OnTables(tables: seq<string>, changes: map<string, seq<TableOp>>): seq<Op>
    decreases |tables|
  {
    if tables == [] then []
    else
      var m := tables[|tables| - 1];
      OnTables(tables[..|tables| - 1], changes) + (if m in changes then OnTable(m, changes[m]) else [])
  }

  lemma {:induction false} OnTablesFrame(tables: seq<string>, changes: map<string, seq<TableOp>>, m: string, ops: seq<TableOp>)
    requires m !in tables
    ensures OnTables(tables, changes[m := ops]) == OnTables(tables, changes)
    decreases |tables|
  {
    if tables != [] {
      LastOfOrder(tables);
      OnTablesFrame(tables[..|tables| - 1], changes, m, ops);
    }
  }

  lemma {:induction false} OnTablesAlter(tables: seq<string>, changes: map<string, seq<TableOp>>,
                                         order: Order, fims: map<string, FieldIds>, current: SchemaState, desired: SchemaState)
    requires ValidOrders(order, fims, current, desired) && forall m :: m in tables ==> m in desired
    requires forall m :: m in tables ==> (m in changes <==> m in current)
    requires forall m :: m in tables && m in changes && m in current && m in desired ==>
      changes[m] == TableChanges(m, order, fims, current, desired)
    ensures OnTables(tables, changes) == AlterOps(tables, order, fims, current, desired)
    decreases |tables|
  {
    hide ValidOrders, TableChanges;
    if tables != [] {
      LastOfOrder(tables);
      OnTablesAlter(tables[..|tables| - 1], changes, order, fims, current, desired);
    }
  }

  lemma {:induction false} OneMoreTable(order: seq<string>, m: string, current: SchemaState, desired: SchemaState)
    ensures CreateOps(order + [m], current) == CreateOps(order, current) + (if m in current then [] else [CreateTable(m)])
    ensures DropTableOps(order + [m], desired) == DropTableOps(order, desired) + (if m in desired then [] else [DropTable(m)])
  {
    assert (order + [m])[..|order|] == order;
  }

  method CreatedTables(current: SchemaState, desired: SchemaState) returns (ops: seq<Op>)
    ensures exists order :: Enumerates(order, desired.Keys) && ops == CreateOps(order, current)
  {
    assert CreateOps([], current) == [];
    hide Met, Enumerates, CreateOps;
    MetNone<string>(desired.Keys);
    ops := [];
    ghost var order: seq<string> := [];
    var rest := desired.Keys;
    while rest != {}
      invariant Met(order, desired.Keys, rest) && ops == CreateOps(order, current)
      decreases rest
    {
      var m :| m in rest;
      MeetOne(order, desired.Keys, rest, m);
      OneMoreTable(order, m, current, desired);
      order := order + [m];
      rest := rest - {m};
      if m !in current {
        ops := ops + [CreateTable(m)];
      }
    }
    MetAll(order, desired.Keys);
  }

  method DroppedTables(current: SchemaState, desired: SchemaState) returns (ops: seq<Op>)
    ensures exists order :: Enumerates(order, current.Keys) && ops == DropTableOps(order, desired)
  {
    assert DropTableOps([], desired) == [];
    hide Met, Enumerates, DropTableOps;
    MetNone<string>(current.Keys);
    ops := [];
    ghost var order: seq<string> := [];
    var rest := current.Keys;
    while rest != {}
      invariant Met(order, current.Keys, rest) && ops == DropTableOps(order, desired)
      decreases rest
    {
      var m :| m in rest;
      MeetOne(order, current.Keys, rest, m);
      OneMoreTable(order, m, current, desired);
      order := order + [m];
      rest := rest - {m};
      if m !in desired {
        ops := ops + [DropTable(m)];
      }
    }
    MetAll(order, current.Keys);
  }

  function FimOf(m: string, fims: map<string, FieldIds>): Option<FieldIds> { if m in fims then Some(fims[m]) else None }

  /** What is known of one table once its diff has been taken. */
  ghost predicate TableDone(m: string, changes: seq<TableOp>, order: TableOrder, fims: map<string, FieldIds>, current: ModelState, desired: ModelState) {
    TableDiff(changes, order, FimOf(m, fims), current, desired)
  }

  /** The tables to alter are done, but for those still to be met. */
  ghost predicate AllDone(rest: set<string>, tables: map<string, TableOrder>, changes: map<string, seq<TableOp>>,
                          fims: map<string, FieldIds>, current: SchemaState, desired: SchemaState) {
    && (forall m :: m in tables <==> m in changes)
    && (forall m :: m in changes <==> m in desired && m in current && m !in rest)
    && (forall m :: m in changes ==> TableDone(m, changes[m], tables[m], fims, current[m], desired[m]))
  }

  lemma {:induction false} DoneOne(rest: set<string>, tables: map<string, TableOrder>, changes: map<string, seq<TableOp>>,
                                   fims: map<string, FieldIds>, current: SchemaState, desired: SchemaState, m: string, order: TableOrder, ops: seq<TableOp>)
    requires AllDone(rest, tables, changes, fims, current, desired) && m in rest && m in desired
    requires m in current && TableDone(m, ops, order, fims, current[m], desired[m])
    ensures AllDone(rest - {m}, tables[m := order], changes[m := ops], fims, current, desired)
  {
    hide TableDone;
  }

  lemma {:induction false} OneMoreAltered(tables: seq<string>, changes: map<string, seq<TableOp>>, m: string)
    ensures OnTables(tables + [m], changes) == OnTables(tables, changes) + (if m in changes then OnTable(m, changes[m]) else [])
  {
    assert (tables + [m])[..|tables|] == tables;
  }

  /** The operations on the tables that stay, for some orders of the loops. */
  ghost predicate AlteredBy(ops: seq<Op>, altered: seq<string>, tables: map<string, TableOrder>, changes: map<string, seq<TableOp>>,
                            fims: map<string, FieldIds>, current: SchemaState, desired: SchemaState) {
    && Enumerates(altered, desired.Keys) && ops == OnTables(altered, changes)
    && AllDone({}, tables, changes, fims, current, desired)
  }

  method AlteredTables(fims: map<string, FieldIds>, current: SchemaState, desired: SchemaState) returns (ops: seq<Op>)
    ensures exists altered, tables, changes :: AlteredBy(ops, altered, tables, changes, fims, current, desired)
  {
    assert OnTables([], map[]) == [];
    ops := [];
    ghost var altered: seq<string>, tables: map<string, TableOrder>, changes: map<string, seq<TableOp>> := [], map[], map[];
    assert AllDone(desired.Keys, tables, changes, fims, current, desired);
    hide AllDone, TableDone, Met, Enumerates, OnTable, OnTables;
    MetNone<string>(desired.Keys);
    var rest := desired.Keys;
    while rest != {}
      invariant rest <= desired.Keys && Met(altered, desired.Keys, rest)
      invariant ops == OnTables(altered, changes) && AllDone(rest, tables, changes, fims, current, desired)
      decreases rest
    {
      var m :| m in rest;
      MeetOne(altered, desired.Keys, rest, m);
      if m in current {
        var tableOps := DiffOne(m, fims, current[m], desired[m]);
        ghost var order :| TableDone(m, tableOps, order, fims, current[m], desired[m]);
        var onTable := AlteredTable(m, tableOps);
        DoneOne(rest, tables, changes, fims, current, desired, m, order, tableOps);
        OnTablesFrame(altered, changes, m, tableOps);
        tables, changes := tables[m := order], changes[m := tableOps];
        OneMoreAltered(altered, changes, m);
        ops := ops + onTable;
      } else {
        NotAltered(rest, tables, changes, fims, current, desired, altered, m);
      }
      altered := altered + [m];
      rest := rest - {m};
    }
    MetAll(altered, desired.Keys);
    assert AlteredBy(ops, altered, tables, changes, fims, current, desired);
  }

  lemma {:induction false} NotAltered(rest: set<string>, tables: map<string, TableOrder>, changes: map<string, seq<TableOp>>,
                                      fims: map<string, FieldIds>, current: SchemaState, desired: SchemaState, altered: seq<string>, m: string)
    requires AllDone(rest, tables, changes, fims, current, desired) && m in rest && m in desired && m !in current
    ensures AllDone(rest - {m}, tables, changes, fims, current, desired)
    ensures OnTables(altered + [m], changes) == OnTables(altered, changes)
  {
    hide TableDone;
    OneMoreAltered(altered, changes, m);
  }

  method DiffOne(m: string, fims: map<string, FieldIds>, current: ModelState, desired: ModelState) returns (ops: seq<TableOp>)
    ensures exists order :: TableDone(m, ops, order, fims, current, desired)
  {
    hide TableDiff;
    ops := DiffTable(FimOf(m, fims), current, desired);
    ghost var order :| TableDiff(ops, order, FimOf(m, fims), current, desired);
    assert TableDone(m, ops, order, fims, current, desired);
  }

  lemma {:induction false} DoneTable(m: string, order: Order, fims: map<string, FieldIds>, changes: seq<TableOp>, current: ModelState, desired: ModelState)
    requires m in order.tables && TableDone(m, changes, order.tables[m], fims, current, desired)
    ensures var renames := RenamesOf(m, order, fims, current, desired);
      && (m in fims ==> Enumerates(order.tables[m].ids, fims[m].oldById.Keys))
      && Meaningful(renames, current, desired) && ValidOrder(order.tables[m], renames, current, desired)
      && changes == TableOps(order.tables[m], renames, current, desired)
  {
    hide ValidOrder, TableOps, Meaningful, Enumerates, DetectRenames;
  }

  /** Created tables, dropped tables, and the tables that stay: the diff, for some order of all loops. */
  method DiffSchemas(fims: map<string, FieldIds>, current: SchemaState, desired: SchemaState) returns (ops: seq<Op>)
    ensures exists order :: ValidOrders(order, fims, current, desired) && ops == Diff(order, fims, current, desired)
  {
    hide CreateOps, DropTableOps, AlteredBy, ValidOrders, Diff;
    var create := CreatedTables(current, desired);
    var drop := DroppedTables(current, desired);
    var alter := AlteredTables(fims, current, desired);
    ghost var created: seq<string> :| Enumerates(created, desired.Keys) && create == CreateOps(created, current);
    ghost var dropped: seq<string> :| Enumerates(dropped, current.Keys) && drop == DropTableOps(dropped, desired);
    ghost var altered, tables, changes :| AlteredBy(alter, altered, tables, changes, fims, current, desired);
    ops := create + drop + alter;
    WholeDiff(created, dropped, alter, altered, tables, changes, fims, current, desired);
  }

  lemma {:induction false} WholeDiff(created: seq<string>, dropped: seq<string>, alter: seq<Op>, altered: seq<string>, tables: map<string, TableOrder>,
                                     changes: map<string, seq<TableOp>>, fims: map<string, FieldIds>, current: SchemaState, desired: SchemaState)
    requires Enumerates(created, desired.Keys) && Enumerates(dropped, current.Keys)
    requires AlteredBy(alter, altered, tables, changes, fims, current, desired)
    ensures var order := Order(created, dropped, altered, tables);
      && ValidOrders(order, fims, current, desired)
      && CreateOps(created, current) + DropTableOps(dropped, desired) + alter == Diff(order, fims, current, desired)
  {
    hide CreateOps, DropTableOps, OnTables, AlterOps, RenamesOf, ValidOrder, Enumerates, TableDone, TableOps, Meaningful;
    var order := Order(created, dropped, altered, tables);
    forall m | m in desired && m in current
      ensures var renames := RenamesOf(m, order, fims, current[m], desired[m]);
        && m in order.tables && (m in fims ==> Enumerates(order.tables[m].ids, fims[m].oldById.Keys))
        && Meaningful(renames, current[m], desired[m]) && ValidOrder(order.tables[m], renames, current[m], desired[m])
        && changes[m] == TableOps(order.tables[m], renames, current[m], desired[m])
    {
      DoneTable(m, order, fims, changes[m], current[m], desired[m]);
    }
    AlteredListed(altered, desired);
    OnTablesAlter(altered, changes, order, fims, current, desired);
    var create, drop := CreateOps(created, current), DropTableOps(dropped, desired);
    assert create + drop + alter == create + (drop + alter);
  }

  lemma {:induction false} AlteredListed(altered: seq<string>, desired: SchemaState)
    requires Enumerates(altered, desired.Keys)
    ensures forall m :: m in altered <==> m in desired
  {
  }
}
