/**
 When the diff of one table succeeds under every order of the loops: exactly when its renames are
 clean. Each kind of unclean rename has an order that makes an operation fail or the result wrong.
 */
module MigrationResults {
  import opened Wrappers
  import opened SchemaDiff
  import opened MigrationProofs

  // ---------------------------------------------------------------- when clean renames are needed

  ghost predicate Succeeds(order: TableOrder, renames: map<string, string>, current: ModelState, desired: ModelState)
    requires Meaningful(renames, current, desired) && ValidOrder(order, renames, current, desired)
  {
    var r := ExecuteAll(TableOf(current), TableOps(order, renames, current, desired));
    r.Some? && Migrated(r.value, renames, current, desired)
  }

  /** A list of the elements of a finite set. */
  ghost function Listing<T(!new)>(s: set<T>): (order: seq<T>)
    ensures Enumerates(order, s)
  {
    if s == {} then []
    else
      var x :| x in s;
      var rest := Listing(s - {x});
      Prefixed([x], s - {x}, rest);
      assert {x} + (s - {x}) == s;
      [x] + rest
  }

  lemma {:induction false} Prefixed<T(!new)>(front: seq<T>, s: set<T>, rest: seq<T>)
    requires Enumerates(rest, s) && Distinct(front) && forall x :: x in front ==> x !in s
    ensures Enumerates(front + rest, (set x | x in front) + s)
  {
    var all := front + rest;
    forall i, j | 0 <= i < j < |all| ensures all[i] != all[j] {
      if j < |front| {
      } else if i < |front| {
        assert all[i] in front && all[j] == rest[j - |front|] && all[j] in rest;
      } else {
        assert all[i] == rest[i - |front|] && all[j] == rest[j - |front|];
      }
    }
  }

  /** Some order of the loops in which the renames start with `front`. */
  lemma {:induction false} OrderStarting(front: seq<string>, renames: map<string, string>, current: ModelState, desired: ModelState)
    returns (order: TableOrder)
    requires Distinct(front) && forall x :: x in front ==> x in renames
    ensures ValidOrder(order, renames, current, desired)
    ensures |order.renames| >= |front| && order.renames[..|front|] == front
  {
    var rest := renames.Keys - Elems(front);
    Prefixed(front, rest, Listing(rest));
    assert Elems(front) + rest == renames.Keys;
    order := TableOrder([], front + Listing(rest), Listing(desired.columns.Keys), Listing(current.columns.Keys),
      Listing(desired.columns.Keys), Listing(IndexMap(desired.indexes).Keys), Listing(IndexMap(current.indexes).Keys));
  }

  function RenameStatements(o: string, renames: map<string, string>, current: ModelState, desired: ModelState): seq<TableOp>
    requires Meaningful(renames, current, desired) && o in renames
  {
    var old_, new_ := current.columns[o], desired.columns[renames[o]];
    [RenameColumn(o, renames[o], old_, new_)] + (if ColumnChanged(old_, new_) then [AlterColumn(renames[o], old_, new_)] else [])
  }

  lemma {:induction false} RenameOpsSplit(a: seq<string>, b: seq<string>, renames: map<string, string>, current: ModelState, desired: ModelState)
    requires Meaningful(renames, current, desired) && forall o :: o in a + b ==> o in renames
    requires forall o :: o in a ==> o in renames
    requires forall o :: o in b ==> o in renames
    ensures RenameOps(a + b, renames, current, desired) ==
      RenameOps(a, renames, current, desired) + RenameOps(b, renames, current, desired)
    decreases |b|
  {
    hide Meaningful;
    if b == [] {
      assert a + b == a;
    } else {
      assert (a + b)[..|a + b| - 1] == a + b[..|b| - 1];
      RenameOpsSplit(a, b[..|b| - 1], renames, current, desired);
    }
  }

  lemma {:induction false} OneRename(o: string, renames: map<string, string>, current: ModelState, desired: ModelState)
    requires Meaningful(renames, current, desired) && o in renames
    ensures RenameOps([o], renames, current, desired) == RenameStatements(o, renames, current, desired)
  {
    assert RenameOps([o][..0], renames, current, desired) == [];
  }

  /** Everything after the first rename. */
  lemma {:induction false} FirstRename(order: TableOrder, o: string, renames: map<string, string>, current: ModelState, desired: ModelState)
    returns (rest: seq<TableOp>)
    requires Meaningful(renames, current, desired) && ValidOrder(order, renames, current, desired)
    requires order.renames != [] && order.renames[0] == o && o in renames
    requires forall x :: x in order.renames[1..] ==> x in renames
    ensures TableOps(order, renames, current, desired) == RenameStatements(o, renames, current, desired) + rest
    ensures var targets := Targets(renames);
      rest == RenameOps(order.renames[1..], renames, current, desired) +
        (((AddOps(order.desired, current, desired, targets) + DropOps(order.current, current, desired, renames.Keys)) +
         ChangeOps(order.changed, current, desired, targets)) + IndexOps(order, renames, current, desired))
  {
    hide RenameOps, AddOps, DropOps, ChangeOps, IndexOps, Meaningful;
    assert order.renames == [o] + order.renames[1..];
    RenameOpsSplit([o], order.renames[1..], renames, current, desired);
    OneRename(o, renames, current, desired);
    var more := (AddOps(order.desired, current, desired, Targets(renames)) + DropOps(order.current, current, desired, renames.Keys)) +
      ChangeOps(order.changed, current, desired, Targets(renames));
    rest := RenameOps(order.renames[1..], renames, current, desired) + (more + IndexOps(order, renames, current, desired));
    var a, b, c, d := RenameStatements(o, renames, current, desired), RenameOps(order.renames[1..], renames, current, desired), more,
      IndexOps(order, renames, current, desired);
    assert ((a + b) + c) + d == a + (b + (c + d));
  }

  lemma {:induction false} FailsAtOnce(t: Table, op: TableOp, rest: seq<TableOp>)
    requires Execute(t, op).None?
    ensures ExecuteAll(t, [op] + rest).None?
  {
  }

  /** A new name that is already a column of the table. */
  lemma {:induction false} TakenTargetFails(o: string, renames: map<string, string>, current: ModelState, desired: ModelState)
    requires Meaningful(renames, current, desired) && o in renames && renames[o] in current.columns
    ensures exists order :: ValidOrder(order, renames, current, desired) && !Succeeds(order, renames, current, desired)
  {
    hide ValidOrder, IndexMap, RenameOps, TableOps, Migrated;
    var order := OrderStarting([o], renames, current, desired);
    assert order.renames[0] == [o][0];
    OthersKnown(order, renames, current, desired);
    var rest := FirstRename(order, o, renames, current, desired);
    var rename := RenameColumn(o, renames[o], current.columns[o], desired.columns[renames[o]]);
    var tail := RenameStatements(o, renames, current, desired)[1..] + rest;
    assert RenameStatements(o, renames, current, desired) + rest == [rename] + tail;
    FailsAtOnce(TableOf(current), rename, tail);
    assert !Succeeds(order, renames, current, desired);
  }

  lemma {:induction false} OthersKnown(order: TableOrder, renames: map<string, string>, current: ModelState, desired: ModelState)
    requires ValidOrder(order, renames, current, desired)
    ensures forall x :: x in order.renames ==> x in renames
    ensures order.renames != [] ==> forall x :: x in order.renames[1..] ==> x in renames
    ensures |order.renames| > 1 ==> forall x :: x in order.renames[2..] ==> x in renames
  {
  }

  /** Two old names for one new name: the second statement fails. */
  lemma {:induction false} SharedTargetFails(a: string, b: string, renames: map<string, string>, current: ModelState, desired: ModelState)
    requires Meaningful(renames, current, desired) && a in renames && b in renames && a != b && renames[a] == renames[b]
    requires renames[a] !in current.columns
    ensures exists order :: ValidOrder(order, renames, current, desired) && !Succeeds(order, renames, current, desired)
  {
    hide ValidOrder, IndexMap, RenameOps, TableOps, Migrated, ExecuteAll;
    var order := OrderStarting([a, b], renames, current, desired);
    assert order.renames[..2][0] == a && order.renames[..2][1] == b;
    OthersKnown(order, renames, current, desired);
    var rest := FirstRename(order, a, renames, current, desired);
    var n := renames[a];
    var others := order.renames[2..];
    assert order.renames[1..] == [b] + others;
    RenameOpsSplit([b], others, renames, current, desired);
    OneRename(b, renames, current, desired);
    RenameExecutes(TableOf(current), a, n, current.columns[a], desired.columns[n]);
    var t := TableOf(current).(columns := (current.columns - {a})[n := Keeping(current.columns[a], desired.columns[n])]);
    var rename := RenameColumn(b, n, current.columns[b], desired.columns[n]);
    var tail := rest[1..];
    assert rest == [rename] + tail;
    FailsAtOnce(t, rename, tail);
    ExecuteConcat(TableOf(current), RenameStatements(a, renames, current, desired), rest);
    assert !Succeeds(order, renames, current, desired);
  }

  ghost predicate NoneAdds(ops: seq<TableOp>, c: string) {
    forall i :: 0 <= i < |ops| ==>
      && !(ops[i].AddColumn? && ops[i].column == c)
      && !(ops[i].RenameColumn? && ops[i].column == c)
  }

  lemma {:induction false} AbsentStays(t: Table, ops: seq<TableOp>, c: string)
    requires c !in t.columns && NoneAdds(ops, c)
    ensures var r := ExecuteAll(t, ops); r.Some? ==> c !in r.value.columns
    decreases |ops|
  {
    if ops != [] {
      match Execute(t, ops[0])
      case None =>
      case Some(t') => AbsentStays(t', ops[1..], c);
    }
  }

  lemma {:induction false} NoneAddsConcat(a: seq<TableOp>, b: seq<TableOp>, c: string)
    requires NoneAdds(a, c) && NoneAdds(b, c)
    ensures NoneAdds(a + b, c)
  {
  }

  lemma {:induction false} RenamesAddNot(order: seq<string>, renames: map<string, string>, current: ModelState, desired: ModelState, c: string)
    requires Meaningful(renames, current, desired) && forall o :: o in order ==> o in renames && renames[o] != c
    ensures NoneAdds(RenameOps(order, renames, current, desired), c)
    decreases |order|
  {
    if order != [] {
      RenamesAddNot(order[..|order| - 1], renames, current, desired, c);
    }
  }

  lemma {:induction false} AddsAddNot(order: seq<string>, current: ModelState, desired: ModelState, renamedNew: set<string>, c: string)
    requires c in current.columns && forall x :: x in order ==> x in desired.columns
    ensures NoneAdds(AddOps(order, current, desired, renamedNew), c)
    decreases |order|
  {
    if order != [] {
      AddsAddNot(order[..|order| - 1], current, desired, renamedNew, c);
    }
  }

  lemma {:induction false} DropsAddNot(order: seq<string>, current: ModelState, desired: ModelState, renamedOld: set<string>, c: string)
    requires forall x :: x in order ==> x in current.columns
    ensures NoneAdds(DropOps(order, current, desired, renamedOld), c)
    decreases |order|
  {
    if order != [] {
      DropsAddNot(order[..|order| - 1], current, desired, renamedOld, c);
    }
  }

  lemma {:induction false} ChangesAddNot(order: seq<string>, current: ModelState, desired: ModelState, renamedNew: set<string>, c: string)
    requires forall x :: x in order ==> x in desired.columns
    ensures NoneAdds(ChangeOps(order, current, desired, renamedNew), c)
    decreases |order|
  {
    if order != [] {
      ChangesAddNot(order[..|order| - 1], current, desired, renamedNew, c);
    }
  }

  lemma {:induction false} NewIndexesAddNot(order: seq<string>, current: map<string, Index>, desired: map<string, Index>, c: string)
    requires forall n :: n in order ==> n in desired
    ensures NoneAdds(NewIndexOps(order, current, desired), c)
    decreases |order|
  {
    if order != [] {
      NewIndexesAddNot(order[..|order| - 1], current, desired, c);
    }
  }

  lemma {:induction false} OldIndexesAddNot(order: seq<string>, current: map<string, Index>, desired: map<string, Index>, c: string)
    requires forall n :: n in order ==> n in current
    ensures NoneAdds(OldIndexOps(order, current, desired), c)
    decreases |order|
  {
    if order != [] {
      OldIndexesAddNot(order[..|order| - 1], current, desired, c);
    }
  }

  /** An old name that is still desired is renamed away and never comes back. */
  lemma {:induction false} StillDesiredFails(o: string, renames: map<string, string>, current: ModelState, desired: ModelState)
    requires Meaningful(renames, current, desired) && o in renames && o in desired.columns
    requires forall x :: x in renames ==> renames[x] !in current.columns
    ensures exists order :: ValidOrder(order, renames, current, desired) && !Succeeds(order, renames, current, desired)
  {
    hide IndexMap, RenameOps, AddOps, DropOps, ChangeOps, NewIndexOps, OldIndexOps, TableOps, ExecuteAll, Enumerates;
    var order := OrderStarting([o], renames, current, desired);
    assert order.renames[0] == [o][0];
    OthersKnown(order, renames, current, desired);
    var rest := FirstRename(order, o, renames, current, desired);
    var n := renames[o];
    RenameExecutes(TableOf(current), o, n, current.columns[o], desired.columns[n]);
    var t := TableOf(current).(columns := (current.columns - {o})[n := Keeping(current.columns[o], desired.columns[n])]);
    ExecuteConcat(TableOf(current), RenameStatements(o, renames, current, desired), rest);
    RestAddsNot(order, o, renames, current, desired, rest);
    AbsentStays(t, rest, o);
    assert !Succeeds(order, renames, current, desired);
  }

  lemma {:induction false} RestAddsNot(order: TableOrder, o: string, renames: map<string, string>, current: ModelState, desired: ModelState, rest: seq<TableOp>)
    requires Meaningful(renames, current, desired) && ValidOrder(order, renames, current, desired)
    requires o in current.columns && forall x :: x in renames ==> renames[x] !in current.columns
    requires order.renames != [] && forall x :: x in order.renames[1..] ==> x in renames
    requires var targets := Targets(renames);
      rest == RenameOps(order.renames[1..], renames, current, desired) +
        (((AddOps(order.desired, current, desired, targets) + DropOps(order.current, current, desired, renames.Keys)) +
         ChangeOps(order.changed, current, desired, targets)) + IndexOps(order, renames, current, desired))
    ensures NoneAdds(rest, o)
  {
    hide RenameOps, AddOps, DropOps, ChangeOps, NewIndexOps, OldIndexOps, IndexMap, NoneAdds;
    var targets := Targets(renames);
    var cur, des := IndexMap(current.indexes), IndexMap(desired.indexes);
    RenamesAddNot(order.renames[1..], renames, current, desired, o);
    AddsAddNot(order.desired, current, desired, targets, o);
    DropsAddNot(order.current, current, desired, renames.Keys, o);
    ChangesAddNot(order.changed, current, desired, targets, o);
    NewIndexesAddNot(order.newIndexes, cur, des, o);
    OldIndexesAddNot(order.oldIndexes, cur, des, o);
    NoneAddsConcat(NewIndexOps(order.newIndexes, cur, des), OldIndexOps(order.oldIndexes, cur, des), o);
    var adds, drops, changes := AddOps(order.desired, current, desired, targets), DropOps(order.current, current, desired, renames.Keys),
      ChangeOps(order.changed, current, desired, targets);
    NoneAddsConcat(adds, drops, o);
    NoneAddsConcat(adds + drops, changes, o);
    NoneAddsConcat((adds + drops) + changes, IndexOps(order, renames, current, desired), o);
    NoneAddsConcat(RenameOps(order.renames[1..], renames, current, desired),
      ((adds + drops) + changes) + IndexOps(order, renames, current, desired), o);
  }

  /** The diff of a table migrates it under every iteration order exactly when the renames are clean. */
  lemma {:induction false} MigratesIffClean(renames: map<string, string>, current: ModelState, desired: ModelState)
    requires Meaningful(renames, current, desired)
    ensures (forall order :: ValidOrder(order, renames, current, desired) ==> Succeeds(order, renames, current, desired)) <==>
      Clean(renames, current, desired)
  {
    hide Meaningful, ValidOrder, Succeeds;
    if Clean(renames, current, desired) {
      forall order | ValidOrder(order, renames, current, desired) ensures Succeeds(order, renames, current, desired) {
        CleanSucceeds(order, renames, current, desired);
      }
    } else if o :| o in renames && renames[o] in current.columns {
      TakenTargetFails(o, renames, current, desired);
    } else if a, b :| a in renames && b in renames && a != b && renames[a] == renames[b] {
      SharedTargetFails(a, b, renames, current, desired);
    } else {
      var o :| o in renames && o in desired.columns;
      StillDesiredFails(o, renames, current, desired);
    }
  }

  lemma {:induction false} CleanSucceeds(order: TableOrder, renames: map<string, string>, current: ModelState, desired: ModelState)
    requires Meaningful(renames, current, desired) && ValidOrder(order, renames, current, desired) && Clean(renames, current, desired)
    ensures Succeeds(order, renames, current, desired)
  {
    hide TableOps, Migrated, Clean, ValidOrder;
    TableMigrates(order, renames, current, desired);
  }
}
