/**
 Executing the diff of one table with clean renames: every operation executes, in whatever order Go's
 maps were iterated, and the table ends up as desired.
 */
module MigrationProofs {
  import opened Wrappers
  import opened SchemaDiff

  /** Distinct targets that are new names, sources that are gone. */
  ghost predicate Clean(renames: map<string, string>, current: ModelState, desired: ModelState) {
    && (forall a, b :: a in renames && b in renames && renames[a] == renames[b] ==> a == b)
    && (forall o :: o in renames ==> o !in desired.columns && renames[o] !in current.columns)
  }

  /** The desired column, with the key and the sequence that the column already had. */
  function Keeping(o: Column, n: Column): Column { n.(pk := o.pk, serial := o.serial) }

  /** The table has the desired columns and indexes; renamed and kept columns keep key and sequence,
      kept indexes keep their definition. */
  ghost predicate Migrated(t: Table, renames: map<string, string>, current: ModelState, desired: ModelState)
    requires Meaningful(renames, current, desired)
  {
    && t.columns.Keys == desired.columns.Keys
    && (forall o :: o in renames ==> t.columns[renames[o]] == Keeping(current.columns[o], desired.columns[renames[o]]))
    && (forall c :: c in desired.columns && c !in Targets(renames) ==>
      t.columns[c] == if c in current.columns then Keeping(current.columns[c], desired.columns[c]) else desired.columns[c])
    && t.indexes.Keys == IndexMap(desired.indexes).Keys
    && (forall n :: n in IndexMap(desired.indexes) ==>
      t.indexes[n] == if n in IndexMap(current.indexes) then IndexMap(current.indexes)[n] else IndexMap(desired.indexes)[n])
  }

  lemma {:induction false} ExecuteConcat(t: Table, a: seq<TableOp>, b: seq<TableOp>)
    ensures ExecuteAll(t, a + b) ==
      match ExecuteAll(t, a) case None => None case Some(t') => ExecuteAll(t', b)
    decreases |a|
  {
    hide Execute;
    if a == [] {
      assert a + b == b;
    } else {
      assert (a + b)[1..] == a[1..] + b;
      match Execute(t, a[0])
      case None =>
      case Some(t') => ExecuteConcat(t', a[1..], b);
    }
  }

  lemma {:induction false} ExecuteOne(t: Table, op: TableOp)
    ensures ExecuteAll(t, [op]) == Execute(t, op)
  {
    hide Execute;
    match Execute(t, op)
    case None =>
    case Some(t') => assert ExecuteAll(t', [op][1..]) == Some(t');
  }

  // ---------------------------------------------------------------- renames

  ghost predicate Distinct<T(!new)>(order: seq<T>) {
    forall i, j :: 0 <= i < j < |order| ==> order[i] != order[j]
  }

  function TargetsOf(done: set<string>, renames: map<string, string>): set<string>
    requires done <= renames.Keys
  {
    set o | o in done :: renames[o]
  }

  /** The table once the columns in `done` have been renamed. */
  ghost predicate AfterRenames(t: Table, done: set<string>, renames: map<string, string>, current: ModelState, desired: ModelState)
    requires Meaningful(renames, current, desired) && done <= renames.Keys
  {
    && t.columns.Keys == (current.columns.Keys - done) + TargetsOf(done, renames)
    && (forall c :: c in current.columns && c !in done ==> t.columns[c] == current.columns[c])
    && (forall o :: o in done ==> t.columns[renames[o]] == Keeping(current.columns[o], desired.columns[renames[o]]))
    && t.indexes == IndexMap(current.indexes)
  }

  lemma {:induction false} AlteredKeeps(o: Column, n: Column)
    ensures Altered(o, o, n) == Keeping(o, n)
    ensures !ColumnChanged(o, n) ==> o == Keeping(o, n)
  {
  }

  function Elems(order: seq<string>): set<string> { set o | o in order }

  lemma {:induction false} RenamePhase(order: seq<string>, renames: map<string, string>, current: ModelState, desired: ModelState)
    requires Meaningful(renames, current, desired) && Clean(renames, current, desired)
    requires Distinct(order) && Elems(order) <= renames.Keys && forall o :: o in order ==> o in renames
    ensures var r := ExecuteAll(TableOf(current), RenameOps(order, renames, current, desired));
      r.Some? && AfterRenames(r.value, Elems(order), renames, current, desired)
    decreases |order|
  {
    hide IndexMap, Clean, Execute, AfterRenames, TargetsOf;
    if order == [] {
      NothingRenamed(renames, current, desired);
      assert Elems(order) == {};
    } else {
      LastOfOrder(order);
      var front, o := order[..|order| - 1], order[|order| - 1];
      assert Elems(order) == Elems(front) + {o};
      RenamePhase(front, renames, current, desired);
      var ops := RenameOps(front, renames, current, desired);
      var t := ExecuteAll(TableOf(current), ops).value;
      RenameStep(t, Elems(front), o, renames, current, desired);
      var n := renames[o];
      var old_, new_ := current.columns[o], desired.columns[n];
      var alter := if ColumnChanged(old_, new_) then [AlterColumn(n, old_, new_)] else [];
      ExecuteConcat(TableOf(current), ops, [RenameColumn(o, n, old_, new_)] + alter);
      assert ops + [RenameColumn(o, n, old_, new_)] + alter == ops + ([RenameColumn(o, n, old_, new_)] + alter);
    }
  }

  lemma {:induction false} NothingRenamed(renames: map<string, string>, current: ModelState, desired: ModelState)
    requires Meaningful(renames, current, desired)
    ensures AfterRenames(TableOf(current), {}, renames, current, desired)
  {
  }

  /** The statements for one more rename. */
  lemma {:induction false} RenameStep(t: Table, done: set<string>, o: string, renames: map<string, string>, current: ModelState, desired: ModelState)
    requires Meaningful(renames, current, desired) && Clean(renames, current, desired)
    requires done <= renames.Keys && o in renames && o !in done
    requires AfterRenames(t, done, renames, current, desired)
    ensures var n := renames[o];
      var old_, new_ := current.columns[o], desired.columns[n];
      var r := ExecuteAll(t, [RenameColumn(o, n, old_, new_)] + (if ColumnChanged(old_, new_) then [AlterColumn(n, old_, new_)] else []));
      r.Some? && AfterRenames(r.value, done + {o}, renames, current, desired)
  {
    hide IndexMap, ColumnChanged, ExecuteAll, Clean, AfterRenames, Keeping, TargetsOf, Meaningful;
    var n := renames[o];
    RenameReady(t, done, o, renames, current, desired);
    RenameExecutes(t, o, n, current.columns[o], desired.columns[n]);
    RenameDone(t, done, o, renames, current, desired);
  }

  lemma {:induction false} RenameReady(t: Table, done: set<string>, o: string, renames: map<string, string>, current: ModelState, desired: ModelState)
    requires Meaningful(renames, current, desired) && Clean(renames, current, desired)
    requires done <= renames.Keys && o in renames && o !in done
    requires AfterRenames(t, done, renames, current, desired)
    ensures o in current.columns && o in t.columns && t.columns[o] == current.columns[o]
    ensures renames[o] in desired.columns && renames[o] !in t.columns
  {
    hide IndexMap;
    var n := renames[o];
    assert n !in TargetsOf(done, renames);
  }

  lemma {:induction false} RenameDone(t: Table, done: set<string>, o: string, renames: map<string, string>, current: ModelState, desired: ModelState)
    requires Meaningful(renames, current, desired) && Clean(renames, current, desired)
    requires done <= renames.Keys && o in renames && o !in done
    requires AfterRenames(t, done, renames, current, desired)
    ensures var n := renames[o];
      AfterRenames(t.(columns := (t.columns - {o})[n := Keeping(current.columns[o], desired.columns[n])]), done + {o}, renames, current, desired)
  {
    hide IndexMap, Keeping, Clean;
    var n := renames[o];
    TargetsFresh(done, o, renames, current, desired);
    var columns := (t.columns - {o})[n := Keeping(current.columns[o], desired.columns[n])];
    forall x | x in done ensures columns[renames[x]] == Keeping(current.columns[x], desired.columns[renames[x]]) {
      assert renames[x] in TargetsOf(done, renames);
    }
    hide TargetsOf;
    forall c ensures c in columns <==> c in (current.columns.Keys - (done + {o})) + TargetsOf(done + {o}, renames) {
    }
    assert columns.Keys == (current.columns.Keys - (done + {o})) + TargetsOf(done + {o}, renames);
  }

  lemma {:induction false} TargetsFresh(done: set<string>, o: string, renames: map<string, string>, current: ModelState, desired: ModelState)
    requires Meaningful(renames, current, desired) && Clean(renames, current, desired)
    requires done <= renames.Keys && o in renames && o !in done
    ensures TargetsOf(done + {o}, renames) == TargetsOf(done, renames) + {renames[o]}
    ensures renames[o] !in TargetsOf(done, renames)
    ensures forall c :: c in TargetsOf(done + {o}, renames) ==> c !in current.columns
  {
  }

  lemma {:induction false} RenameExecutes(t: Table, o: string, n: string, old_: Column, new_: Column)
    requires o in t.columns && t.columns[o] == old_ && n !in t.columns
    ensures ExecuteAll(t, [RenameColumn(o, n, old_, new_)] + (if ColumnChanged(old_, new_) then [AlterColumn(n, old_, new_)] else [])) ==
      Some(t.(columns := (t.columns - {o})[n := Keeping(old_, new_)]))
  {
    hide Altered, ColumnChanged;
    var rename := RenameColumn(o, n, old_, new_);
    var t1 := t.(columns := (t.columns - {o})[n := old_]);
    ExecuteOne(t, rename);
    AlteredKeeps(old_, new_);
    if ColumnChanged(old_, new_) {
      var alter := AlterColumn(n, old_, new_);
      ExecuteConcat(t, [rename], [alter]);
      ExecuteOne(t1, alter);
      assert t1.columns[n := Keeping(old_, new_)] == (t.columns - {o})[n := Keeping(old_, new_)];
    } else {
      assert [rename] + [] == [rename];
    }
  }

  // ---------------------------------------------------------------- additions, drops and changes

  lemma {:induction false} LastOfOrder<T(!new)>(order: seq<T>)
    requires order != []
    ensures forall x :: x in order <==> x in order[..|order| - 1] || x == order[|order| - 1]
    ensures Distinct(order) ==> order[|order| - 1] !in order[..|order| - 1] && Distinct(order[..|order| - 1])
  {
    assert order == order[..|order| - 1] + [order[|order| - 1]];
  }

  lemma {:induction false} AddPhase(t: Table, order: seq<string>, current: ModelState, desired: ModelState, renamedNew: set<string>)
    requires Distinct(order) && forall c :: c in order ==> c in desired.columns
    requires forall c :: c in order ==> (c in t.columns <==> c in current.columns || c in renamedNew)
    ensures var r := ExecuteAll(t, AddOps(order, current, desired, renamedNew));
      && r.Some? && r.value.indexes == t.indexes
      && (forall c :: c in r.value.columns <==> c in t.columns || c in order)
      && (forall c :: c in t.columns ==> r.value.columns[c] == t.columns[c])
      && (forall c :: c in order && c !in t.columns ==> r.value.columns[c] == desired.columns[c])
    decreases |order|
  {
    if order != [] {
      LastOfOrder(order);
      var front, c := order[..|order| - 1], order[|order| - 1];
      AddPhase(t, front, current, desired, renamedNew);
      var ops := AddOps(front, current, desired, renamedNew);
      var t1 := ExecuteAll(t, ops).value;
      if c !in t.columns {
        var op := AddColumn(c, desired.columns[c]);
        ExecuteConcat(t, ops, [op]);
        ExecuteOne(t1, op);
      } else {
        assert ops + [] == ops;
      }
    }
  }

  lemma {:induction false} DropPhase(t: Table, order: seq<string>, current: ModelState, desired: ModelState, renamedOld: set<string>)
    requires Distinct(order) && forall c :: c in order ==> c in current.columns
    requires forall c :: c in order && c !in desired.columns && c !in renamedOld ==> c in t.columns
    ensures var r := ExecuteAll(t, DropOps(order, current, desired, renamedOld));
      && r.Some? && r.value.indexes == t.indexes
      && (forall c :: c in r.value.columns <==> c in t.columns && (c !in order || c in desired.columns || c in renamedOld))
      && (forall c :: c in r.value.columns ==> r.value.columns[c] == t.columns[c])
    decreases |order|
  {
    if order != [] {
      LastOfOrder(order);
      var front, c := order[..|order| - 1], order[|order| - 1];
      DropPhase(t, front, current, desired, renamedOld);
      var ops := DropOps(front, current, desired, renamedOld);
      var t1 := ExecuteAll(t, ops).value;
      if c !in desired.columns && c !in renamedOld {
        var op := DropColumn(c, current.columns[c]);
        ExecuteConcat(t, ops, [op]);
        ExecuteOne(t1, op);
      } else {
        assert ops + [] == ops;
      }
    }
  }

  predicate Changes(c: string, current: ModelState, desired: ModelState, renamedNew: set<string>)
    requires c in desired.columns
  {
    c in current.columns && c !in renamedNew && ColumnChanged(current.columns[c], desired.columns[c])
  }

  lemma {:induction false} ChangePhase(t: Table, order: seq<string>, current: ModelState, desired: ModelState, renamedNew: set<string>)
    requires Distinct(order) && forall c :: c in order ==> c in desired.columns && c in t.columns
    ensures var r := ExecuteAll(t, ChangeOps(order, current, desired, renamedNew));
      && r.Some? && r.value.indexes == t.indexes && r.value.columns.Keys == t.columns.Keys
      && (forall c :: c in t.columns && c !in order ==> r.value.columns[c] == t.columns[c])
      && (forall c :: c in order ==>
          r.value.columns[c] == if Changes(c, current, desired, renamedNew) then Altered(t.columns[c], current.columns[c], desired.columns[c]) else t.columns[c])
    decreases |order|
  {
    hide Altered, ColumnChanged;
    if order != [] {
      LastOfOrder(order);
      var front, c := order[..|order| - 1], order[|order| - 1];
      ChangePhase(t, front, current, desired, renamedNew);
      var ops := ChangeOps(front, current, desired, renamedNew);
      var t1 := ExecuteAll(t, ops).value;
      if Changes(c, current, desired, renamedNew) {
        var op := AlterColumn(c, current.columns[c], desired.columns[c]);
        ExecuteConcat(t, ops, [op]);
        ExecuteOne(t1, op);
      } else {
        assert ops + [] == ops;
      }
    }
  }

  lemma {:induction false} NewIndexPhase(t: Table, order: seq<string>, current: map<string, Index>, desired: map<string, Index>)
    requires Distinct(order) && forall n :: n in order ==> n in desired && desired[n].name == n
    requires t.indexes == current
    ensures var r := ExecuteAll(t, NewIndexOps(order, current, desired));
      && r.Some? && r.value.columns == t.columns
      && (forall n :: n in r.value.indexes <==> n in current || n in order)
      && (forall n :: n in r.value.indexes ==> r.value.indexes[n] == if n in current then current[n] else desired[n])
    decreases |order|
  {
    if order != [] {
      LastOfOrder(order);
      var front, n := order[..|order| - 1], order[|order| - 1];
      NewIndexPhase(t, front, current, desired);
      var ops := NewIndexOps(front, current, desired);
      var t1 := ExecuteAll(t, ops).value;
      if n !in current {
        ExecuteConcat(t, ops, [AddIndex(desired[n])]);
        ExecuteOne(t1, AddIndex(desired[n]));
      } else {
        assert ops + [] == ops;
      }
    }
  }

  lemma {:induction false} OldIndexPhase(t: Table, order: seq<string>, current: map<string, Index>, desired: map<string, Index>)
    requires Distinct(order) && forall n :: n in order ==> n in current && n in t.indexes && current[n].name == n
    ensures var r := ExecuteAll(t, OldIndexOps(order, current, desired));
      && r.Some? && r.value.columns == t.columns
      && (forall n :: n in r.value.indexes <==> n in t.indexes && (n !in order || n in desired))
      && (forall n :: n in r.value.indexes ==> r.value.indexes[n] == t.indexes[n])
    decreases |order|
  {
    if order != [] {
      LastOfOrder(order);
      var front, n := order[..|order| - 1], order[|order| - 1];
      OldIndexPhase(t, front, current, desired);
      var ops := OldIndexOps(front, current, desired);
      var t1 := ExecuteAll(t, ops).value;
      if n !in desired {
        ExecuteConcat(t, ops, [DropIndex(current[n])]);
        ExecuteOne(t1, DropIndex(current[n]));
      } else {
        assert ops + [] == ops;
      }
    }
  }

  lemma {:induction false} IndexNames(indexes: seq<Index>)
    ensures forall n :: n in IndexMap(indexes) ==> IndexMap(indexes)[n].name == n
    decreases |indexes|
  {
    if indexes != [] {
      IndexNames(indexes[..|indexes| - 1]);
    }
  }

  // ---------------------------------------------------------------- one table

  /** With clean renames every operation executes and the table ends up as desired. */
  lemma {:induction false} TableMigrates(order: TableOrder, renames: map<string, string>, current: ModelState, desired: ModelState)
    requires Meaningful(renames, current, desired) && ValidOrder(order, renames, current, desired)
    requires Clean(renames, current, desired)
    ensures var r := ExecuteAll(TableOf(current), TableOps(order, renames, current, desired));
      r.Some? && Migrated(r.value, renames, current, desired)
  {
    hide ColumnOps, NewIndexOps, OldIndexOps, IndexMap, ExecuteAll, Migrated, Meaningful, ColumnsMigrated, Clean;
    var cur, des := IndexMap(current.indexes), IndexMap(desired.indexes);
    ColumnsMigrate(order, renames, current, desired);
    var columnOps := ColumnOps(order, renames, current, desired);
    var t4 := ExecuteAll(TableOf(current), columnOps).value;
    var ops5, ops6 := NewIndexOps(order.newIndexes, cur, des), OldIndexOps(order.oldIndexes, cur, des);
    IndexNames(current.indexes);
    IndexNames(desired.indexes);
    assert t4.indexes == cur by { ColumnsKeepIndexes(t4, renames, current, desired); }
    NewIndexPhase(t4, order.newIndexes, cur, des);
    var t5 := ExecuteAll(t4, ops5).value;
    OldIndexPhase(t5, order.oldIndexes, cur, des);
    ExecuteConcat(TableOf(current), columnOps, ops5 + ops6);
    ExecuteConcat(t4, ops5, ops6);
    IndexesMigrate(t4, ExecuteAll(t5, ops6).value, renames, current, desired);
  }

  lemma {:induction false} ColumnsKeepIndexes(t: Table, renames: map<string, string>, current: ModelState, desired: ModelState)
    requires Meaningful(renames, current, desired) && ColumnsMigrated(t, renames, current, desired)
    ensures t.indexes == IndexMap(current.indexes)
  {
  }

  /** The table has the desired columns; its indexes are untouched. */
  ghost predicate ColumnsMigrated(t: Table, renames: map<string, string>, current: ModelState, desired: ModelState)
    requires Meaningful(renames, current, desired)
  {
    && t.columns.Keys == desired.columns.Keys
    && (forall o :: o in renames ==> t.columns[renames[o]] == Keeping(current.columns[o], desired.columns[renames[o]]))
    && (forall c :: c in desired.columns && c !in Targets(renames) ==>
      t.columns[c] == if c in current.columns then Keeping(current.columns[c], desired.columns[c]) else desired.columns[c])
    && t.indexes == IndexMap(current.indexes)
  }

  lemma {:induction false} IndexesMigrate(t: Table, t': Table, renames: map<string, string>, current: ModelState, desired: ModelState)
    requires Meaningful(renames, current, desired) && ColumnsMigrated(t, renames, current, desired)
    requires t'.columns == t.columns && t'.indexes.Keys == IndexMap(desired.indexes).Keys
    requires forall n :: n in t'.indexes ==>
      t'.indexes[n] == if n in IndexMap(current.indexes) then IndexMap(current.indexes)[n] else IndexMap(desired.indexes)[n]
    ensures Migrated(t', renames, current, desired)
  {
    hide IndexMap;
  }

  lemma {:induction false} ColumnsMigrate(order: TableOrder, renames: map<string, string>, current: ModelState, desired: ModelState)
    requires Meaningful(renames, current, desired) && ValidOrder(order, renames, current, desired)
    requires Clean(renames, current, desired)
    ensures var r := ExecuteAll(TableOf(current), ColumnOps(order, renames, current, desired));
      r.Some? && ColumnsMigrated(r.value, renames, current, desired)
  {
    OrdersKnown(order, renames, current, desired);
    hide RenameOps, AddOps, DropOps, ChangeOps, IndexMap, ExecuteAll, AfterRenames, Clean, ValidOrder, Meaningful, Distinct, Changes, ColumnsMigrated, Elems, Targets, Altered;
    var targets := Targets(renames);
    var ops1 := RenameOps(order.renames, renames, current, desired);
    RenamePhase(order.renames, renames, current, desired);
    var t1 := ExecuteAll(TableOf(current), ops1).value;
    var ops2 := AddOps(order.desired, current, desired, targets);
    var ops3 := DropOps(order.current, current, desired, renames.Keys);
    AddAndDrop(t1, order, renames, current, desired);
    var t3 := ExecuteAll(t1, ops2 + ops3).value;
    var ops4 := ChangeOps(order.changed, current, desired, targets);
    ChangePhase(t3, order.changed, current, desired, targets);
    ChangesMigrate(t3, ExecuteAll(t3, ops4).value, order, renames, current, desired);
    ExecuteConcat(TableOf(current), ops1, (ops2 + ops3) + ops4);
    ExecuteConcat(t1, ops2 + ops3, ops4);
  }

  lemma {:induction false} OrdersKnown(order: TableOrder, renames: map<string, string>, current: ModelState, desired: ModelState)
    requires ValidOrder(order, renames, current, desired)
    ensures Distinct(order.renames) && Elems(order.renames) == renames.Keys
    ensures forall o :: o in order.renames <==> o in renames
    ensures Distinct(order.desired) && forall c :: c in order.desired <==> c in desired.columns
    ensures Distinct(order.current) && forall c :: c in order.current <==> c in current.columns
    ensures Distinct(order.changed) && forall c :: c in order.changed <==> c in desired.columns
  {
    hide IndexMap;
  }

  /** Before the in-place changes: renamed columns are done, kept ones are as they were. */
  ghost predicate Assembled(t: Table, renames: map<string, string>, current: ModelState, desired: ModelState)
    requires Meaningful(renames, current, desired)
  {
    && t.columns.Keys == desired.columns.Keys && t.indexes == IndexMap(current.indexes)
    && (forall o :: o in renames ==> t.columns[renames[o]] == Keeping(current.columns[o], desired.columns[renames[o]]))
    && (forall c :: c in desired.columns && c !in Targets(renames) ==>
      t.columns[c] == if c in current.columns then current.columns[c] else desired.columns[c])
  }

  lemma {:induction false} AddAndDrop(t1: Table, order: TableOrder, renames: map<string, string>, current: ModelState, desired: ModelState)
    requires Meaningful(renames, current, desired) && ValidOrder(order, renames, current, desired)
    requires Clean(renames, current, desired) && AfterRenames(t1, renames.Keys, renames, current, desired)
    ensures var r := ExecuteAll(t1, AddOps(order.desired, current, desired, Targets(renames)) +
                                    DropOps(order.current, current, desired, renames.Keys));
      r.Some? && Assembled(r.value, renames, current, desired)
  {
    OrdersKnown(order, renames, current, desired);
    hide AddOps, DropOps, IndexMap, ExecuteAll, ValidOrder, Distinct, AfterRenames, Meaningful, Clean, Targets, Assembled;
    var targets := Targets(renames);
    var ops2, ops3 := AddOps(order.desired, current, desired, targets), DropOps(order.current, current, desired, renames.Keys);
    AddsExecute(t1, order.desired, renames, current, desired);
    var t2 := ExecuteAll(t1, ops2).value;
    DropsExecute(t1, t2, order.current, renames, current, desired);
    ExecuteConcat(t1, ops2, ops3);
    AssembledFrom(t1, ExecuteAll(t2, ops3).value, renames, current, desired);
  }

  /** The renamed table, with every missing desired column added. */
  lemma {:induction false} AddsExecute(t1: Table, order: seq<string>, renames: map<string, string>, current: ModelState, desired: ModelState)
    requires Meaningful(renames, current, desired) && Clean(renames, current, desired)
    requires AfterRenames(t1, renames.Keys, renames, current, desired)
    requires Distinct(order) && forall c :: c in order <==> c in desired.columns
    ensures var r := ExecuteAll(t1, AddOps(order, current, desired, Targets(renames)));
      && r.Some? && r.value.indexes == t1.indexes
      && (forall c :: c in r.value.columns <==> c in t1.columns || c in desired.columns)
      && (forall c :: c in r.value.columns ==> r.value.columns[c] == if c in t1.columns then t1.columns[c] else desired.columns[c])
  {
    hide AddOps, IndexMap, ExecuteAll, Distinct, AfterRenames, Meaningful, Clean, Targets;
    ColumnsAfterRenames(t1, renames, current, desired);
    AddPhase(t1, order, current, desired, Targets(renames));
  }

  /** And without the columns that are neither desired nor renamed away: those of the desired state are left. */
  lemma {:induction false} DropsExecute(t1: Table, t2: Table, order: seq<string>, renames: map<string, string>, current: ModelState, desired: ModelState)
    requires Meaningful(renames, current, desired) && Clean(renames, current, desired)
    requires AfterRenames(t1, renames.Keys, renames, current, desired)
    requires Distinct(order) && forall c :: c in order <==> c in current.columns
    requires t2.indexes == t1.indexes && forall c :: c in t2.columns <==> c in t1.columns || c in desired.columns
    requires forall c :: c in t2.columns ==> t2.columns[c] == if c in t1.columns then t1.columns[c] else desired.columns[c]
    ensures var r := ExecuteAll(t2, DropOps(order, current, desired, renames.Keys));
      && r.Some? && r.value.indexes == t1.indexes && r.value.columns.Keys == desired.columns.Keys
      && (forall c :: c in r.value.columns ==> r.value.columns[c] == if c in t1.columns then t1.columns[c] else desired.columns[c])
  {
    hide DropOps, IndexMap, ExecuteAll, Distinct, AfterRenames, Meaningful, Clean, Targets;
    ColumnsAfterRenames(t1, renames, current, desired);
    DropPhase(t2, order, current, desired, renames.Keys);
  }

  lemma {:induction false} ColumnsAfterRenames(t1: Table, renames: map<string, string>, current: ModelState, desired: ModelState)
    requires Meaningful(renames, current, desired) && Clean(renames, current, desired)
    requires AfterRenames(t1, renames.Keys, renames, current, desired)
    ensures forall c :: c in t1.columns <==> (c in current.columns && c !in renames) || c in Targets(renames)
    ensures forall c :: c in Targets(renames) ==> c in desired.columns && c !in current.columns
    ensures forall c :: c in renames ==> c in current.columns && c !in desired.columns
  {
    hide IndexMap;
    assert TargetsOf(renames.Keys, renames) == Targets(renames);
  }

  lemma {:induction false} AssembledFrom(t1: Table, t3: Table, renames: map<string, string>, current: ModelState, desired: ModelState)
    requires Meaningful(renames, current, desired) && Clean(renames, current, desired)
    requires AfterRenames(t1, renames.Keys, renames, current, desired)
    requires t3.indexes == t1.indexes && t3.columns.Keys == desired.columns.Keys
    requires forall c :: c in t3.columns ==> t3.columns[c] == if c in t1.columns then t1.columns[c] else desired.columns[c]
    ensures Assembled(t3, renames, current, desired)
  {
    hide IndexMap;
    ColumnsAfterRenames(t1, renames, current, desired);
    assert forall o :: o in renames ==> renames[o] in Targets(renames);
  }

  lemma {:induction false} ChangesMigrate(t: Table, t': Table, order: TableOrder, renames: map<string, string>, current: ModelState, desired: ModelState)
    requires Meaningful(renames, current, desired) && Assembled(t, renames, current, desired)
    requires forall c :: c in order.changed <==> c in desired.columns
    requires t'.indexes == t.indexes && t'.columns.Keys == t.columns.Keys
    requires forall c :: c in order.changed ==>
      t'.columns[c] == if Changes(c, current, desired, Targets(renames)) then Altered(t.columns[c], current.columns[c], desired.columns[c]) else t.columns[c]
    ensures ColumnsMigrated(t', renames, current, desired)
  {
    hide IndexMap, Altered, ColumnChanged;
    forall c | c in desired.columns && c in current.columns && c !in Targets(renames)
      ensures t'.columns[c] == Keeping(current.columns[c], desired.columns[c])
    {
      AlteredKeeps(current.columns[c], desired.columns[c]);
    }
    forall o | o in renames
      ensures t'.columns[renames[o]] == Keeping(current.columns[o], desired.columns[renames[o]])
    {
      assert renames[o] in Targets(renames);
    }
  }
}
