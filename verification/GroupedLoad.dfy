/**
 Named loads, Model.load(field: value, ...): the batch query over many keys and its grouping. A key is
 the list of its arguments.
 */
module GroupedLoad {
  import opened Wire
  import opened SelectionMask
  import opened RecordCodec
  import opened RecordRoundTrip

  /** The arguments as indexes of the model's fields; whether the model is soft-deleted. */
  datatype Call = Call(args: seq<nat>, softDelete: bool)

  type Key = seq<Value>

  /** A row of the table; `deleted` is a set deletion time. */
  datatype TableRow = TableRow(value: Value, deleted: bool)

  type Groups = map<Key, seq<Value>>

  datatype Cond =
    | Eq(field: nat, value: Value)
    | In(field: nat, values: seq<Value>)
    | AllOf(conds: seq<Cond>)
    | AnyOf(conds: seq<Cond>)
    | NotDeleted

  predicate ValidCall(call: Call, width: nat) {
    |call.args| > 0 && forall i :: 0 <= i < |call.args| ==> call.args[i] < width
  }

  predicate RowsWide(table: seq<TableRow>, width: nat) {
    forall i :: 0 <= i < |table| ==> table[i].value.Record? && |table[i].value.row| == width
  }

  predicate KeysFor(call: Call, keys: seq<Key>) {
    forall i :: 0 <= i < |keys| ==> |keys[i]| == |call.args|
  }

  /** The value of the key columns of a row. */
  function KeyOf(call: Call, v: Value): (key: Key)
    requires v.Record? && ValidCall(call, |v.row|)
    ensures |key| == |call.args| && forall i :: 0 <= i < |key| ==> key[i] == v.row[call.args[i]]
  {
    seq(|call.args|, i requires 0 <= i < |call.args| => v.row[call.args[i]])
  }

  // ---------------------------------------------------------------- conditions

  /** The meaning of a condition; an empty AND is true, an empty OR and an empty IN are false. */
  predicate Holds(c: Cond, r: TableRow)
    requires r.value.Record?
    decreases c
  {
    match c
    case Eq(f, v) => f < |r.value.row| && r.value.row[f] == v
    case In(f, vs) => f < |r.value.row| && r.value.row[f] in vs
    case AllOf(cs) => forall i :: 0 <= i < |cs| ==> Holds(cs[i], r)
    case AnyOf(cs) => exists i :: 0 <= i < |cs| && Holds(cs[i], r)
    case NotDeleted => !r.deleted
  }

  function EqualTo(call: Call, key: Key): Cond
    requires |key| == |call.args|
  {
    AllOf(seq(|key|, i requires 0 <= i < |key| => Eq(call.args[i], key[i])))
  }

  /** One argument: IN over the keys. Several: an OR of ANDs of equalities. */
  function KeyCondition(call: Call, keys: seq<Key>): Cond
    requires KeysFor(call, keys) && |call.args| > 0
  {
    if |call.args| == 1 then In(call.args[0], seq(|keys|, i requires 0 <= i < |keys| => keys[i][0]))
    else AnyOf(seq(|keys|, i requires 0 <= i < |keys| => EqualTo(call, keys[i])))
  }

  function Conditions(call: Call, keys: seq<Key>): seq<Cond>
    requires KeysFor(call, keys) && |call.args| > 0
  {
    [KeyCondition(call, keys)] + (if call.softDelete then [NotDeleted] else [])
  }

  predicate Passes(conds: seq<Cond>, r: TableRow)
    requires r.value.Record?
  {
    forall i :: 0 <= i < |conds| ==> Holds(conds[i], r)
  }

  predicate Live(call: Call, r: TableRow) { call.softDelete ==> !r.deleted }

  lemma {:induction false} EqualToSelects(call: Call, key: Key, r: TableRow)
    requires r.value.Record? && ValidCall(call, |r.value.row|) && |key| == |call.args|
    ensures Holds(EqualTo(call, key), r) <==> KeyOf(call, r.value) == key
  {
    var cs := EqualTo(call, key).conds;
    if Holds(EqualTo(call, key), r) {
      forall i | 0 <= i < |key| ensures KeyOf(call, r.value)[i] == key[i] {
        assert Holds(cs[i], r);
      }
    }
  }

  /** The query selects exactly the live rows whose key was asked for. */
  lemma {:induction false} ConditionsSelectKeys(call: Call, keys: seq<Key>, r: TableRow)
    requires r.value.Record? && |call.args| > 0 && forall i :: 0 <= i < |call.args| ==> call.args[i] < |r.value.row|
    requires forall i :: 0 <= i < |keys| ==> |keys[i]| == |call.args|
    ensures Passes(Conditions(call, keys), r) <==> KeyOf(call, r.value) in keys && Live(call, r)
  {
    var key := KeyOf(call, r.value);
    var c := KeyCondition(call, keys);
    if |call.args| == 1 {
      forall i | 0 <= i < |keys| ensures keys[i] == key <==> keys[i][0] == key[0] {
      }
      if Holds(c, r) {
        var i :| 0 <= i < |keys| && c.values[i] == r.value.row[call.args[0]];
        assert keys[i] == key;
      }
      if key in keys {
        var i :| 0 <= i < |keys| && keys[i] == key;
        assert c.values[i] == key[0];
      }
    } else {
      forall i | 0 <= i < |keys| ensures Holds(c.conds[i], r) <==> keys[i] == key {
        EqualToSelects(call, keys[i], r);
      }
    }
    assert Holds(c, r) <==> key in keys;
    var conds := Conditions(call, keys);
    assert conds[0] == c && (call.softDelete ==> conds[1] == NotDeleted);
  }

  // ---------------------------------------------------------------- rows

  /** The rows a query returns, in the order of the table. */
  function Query(table: seq<TableRow>, conds: seq<Cond>): seq<Value>
    requires forall i :: 0 <= i < |table| ==> table[i].value.Record?
    decreases |table|
  {
    if table == [] then []
    else
      var r := table[|table| - 1];
      Query(table[..|table| - 1], conds) + (if Passes(conds, r) then [r.value] else [])
  }

  /** One key at a time: the live rows with that key, in the order of the table. */
  function RowsFor(table: seq<TableRow>, call: Call, width: nat, key: Key): seq<Value>
    requires RowsWide(table, width) && ValidCall(call, width)
    decreases |table|
  {
    if table == [] then []
    else
      var r := table[|table| - 1];
      RowsFor(table[..|table| - 1], call, width, key) +
      (if KeyOf(call, r.value) == key && Live(call, r) then [r.value] else [])
  }

  predicate Wide(rows: seq<Value>, width: nat) {
    forall i :: 0 <= i < |rows| ==> rows[i].Record? && |rows[i].row| == width
  }

  /** The rows of a result that have a key. */
  function RowsWith(rows: seq<Value>, call: Call, width: nat, key: Key): seq<Value>
    requires Wide(rows, width) && ValidCall(call, width)
    decreases |rows|
  {
    if rows == [] then []
    else
      var v := rows[|rows| - 1];
      RowsWith(rows[..|rows| - 1], call, width, key) + (if KeyOf(call, v) == key then [v] else [])
  }

  function Get(groups: Groups, key: Key): seq<Value> { if key in groups then groups[key] else [] }

  lemma {:induction false} QueryWide(table: seq<TableRow>, conds: seq<Cond>, width: nat)
    requires RowsWide(table, width)
    ensures Wide(Query(table, conds), width)
    decreases |table|
  {
    hide Passes;
    if table != [] {
      QueryWide(table[..|table| - 1], conds, width);
    }
  }

  lemma {:induction false} WideAppend(rows: seq<Value>, v: Value, call: Call, width: nat, key: Key)
    requires Wide(rows, width) && v.Record? && |v.row| == width && ValidCall(call, width)
    ensures Wide(rows + [v], width)
    ensures RowsWith(rows + [v], call, width, key) == RowsWith(rows, call, width, key) + (if KeyOf(call, v) == key then [v] else [])
  {
    assert (rows + [v])[..|rows|] == rows;
  }

  /** Grouping the batch gives every key its own rows, and no other key any. */
  lemma {:induction false} BatchHoldsEveryKey(table: seq<TableRow>, call: Call, width: nat, keys: seq<Key>, key: Key)
    requires RowsWide(table, width) && ValidCall(call, width) && KeysFor(call, keys)
    ensures Wide(Query(table, Conditions(call, keys)), width)
    ensures RowsWith(Query(table, Conditions(call, keys)), call, width, key) ==
      if key in keys then RowsFor(table, call, width, key) else []
    decreases |table|
  {
    hide Passes, Conditions, RowsWith;
    var conds := Conditions(call, keys);
    QueryWide(table, conds, width);
    if table == [] {
      NoRowsWith(call, width, key);
    } else {
      var front, r := table[..|table| - 1], table[|table| - 1];
      BatchHoldsEveryKey(front, call, width, keys, key);
      ConditionsSelectKeys(call, keys, r);
      QueryWide(front, conds, width);
      if Passes(conds, r) {
        WideAppend(Query(front, conds), r.value, call, width, key);
      } else {
        assert Query(table, conds) == Query(front, conds) + [] == Query(front, conds);
      }
      assert RowsFor(front, call, width, key) + [] == RowsFor(front, call, width, key);
    }
  }

  lemma {:induction false} NoRowsWith(call: Call, width: nat, key: Key)
    requires ValidCall(call, width)
    ensures RowsWith([], call, width, key) == []
  {
  }

  // ---------------------------------------------------------------- the local batch function

  method KeyConditionOf(call: Call, keys: seq<Key>) returns (c: Cond)
    requires KeysFor(call, keys) && |call.args| > 0
    ensures c == KeyCondition(call, keys)
  {
    if |call.args| == 1 {
      var values: seq<Value> := [];
      for i := 0 to |keys|
        invariant |values| == i && forall j :: 0 <= j < i ==> values[j] == keys[j][0]
      {
        values := values + [keys[i][0]];
      }
      return In(call.args[0], values);
    }
    var groups: seq<Cond> := [];
    for i := 0 to |keys|
      invariant |groups| == i && forall j :: 0 <= j < i ==> groups[j] == EqualTo(call, keys[j])
    {
      var equalities: seq<Cond> := [];
      for a := 0 to |call.args|
        invariant |equalities| == a && forall b :: 0 <= b < a ==> equalities[b] == Eq(call.args[b], keys[i][b])
      {
        equalities := equalities + [Eq(call.args[a], keys[i][a])];
      }
      assert AllOf(equalities) == EqualTo(call, keys[i]);
      groups := groups + [AllOf(equalities)];
    }
    c := AnyOf(groups);
  }

  /** Every row is in the group of its key, in order, and no group is empty. */
  ghost predicate Grouped(groups: Groups, rows: seq<Value>, call: Call, width: nat)
    requires Wide(rows, width) && ValidCall(call, width)
  {
    && (forall key :: Get(groups, key) == RowsWith(rows, call, width, key))
    && (forall key :: key in groups ==> groups[key] != [])
  }

  lemma {:induction false} GroupOne(groups: Groups, rows: seq<Value>, v: Value, call: Call, width: nat)
    requires Wide(rows, width) && v.Record? && |v.row| == width && ValidCall(call, width) && Grouped(groups, rows, call, width)
    ensures Wide(rows + [v], width)
    ensures var key := KeyOf(call, v); Grouped(groups[key := Get(groups, key) + [v]], rows + [v], call, width)
  {
    hide RowsWith;
    var key := KeyOf(call, v);
    var groups' := groups[key := Get(groups, key) + [v]];
    forall k ensures Wide(rows + [v], width) && Get(groups', k) == RowsWith(rows + [v], call, width, k) {
      WideAppend(rows, v, call, width, k);
      assert RowsWith(rows, call, width, k) + [] == RowsWith(rows, call, width, k);
    }
  }

  method Group(rows: seq<Value>, call: Call, width: nat) returns (groups: Groups)
    requires Wide(rows, width) && ValidCall(call, width)
    ensures Grouped(groups, rows, call, width)
  {
    groups := map[];
    assert rows[..0] == [];
    assert Grouped(groups, [], call, width);
    hide Grouped;
    for i := 0 to |rows|
      invariant Wide(rows[..i], width) && Grouped(groups, rows[..i], call, width)
    {
      var key := KeyOf(call, rows[i]);
      assert rows[..i + 1] == rows[..i] + [rows[i]];
      GroupOne(groups, rows[..i], rows[i], call, width);
      groups := groups[key := Get(groups, key) + [rows[i]]];
    }
    assert rows[..|rows|] == rows;
  }

  /** Every key with rows gets exactly its rows; keys without rows, and others, are missing. */
  method LoadLocal(table: seq<TableRow>, call: Call, width: nat, keys: seq<Key>) returns (groups: Groups)
    requires forall i :: 0 <= i < |table| ==> table[i].value.Record? && |table[i].value.row| == width
    requires |call.args| > 0 && forall i :: 0 <= i < |call.args| ==> call.args[i] < width
    requires forall i :: 0 <= i < |keys| ==> |keys[i]| == |call.args|
    ensures forall key :: key in keys ==> Get(groups, key) == RowsFor(table, call, width, key)
    ensures forall key :: key in groups ==> key in keys && groups[key] != []
  {
    hide Query, RowsWith, RowsFor;
    var c := KeyConditionOf(call, keys);
    var conds := [c];
    if call.softDelete {
      conds := conds + [NotDeleted];
    }
    assert conds == Conditions(call, keys);
    QueryWide(table, conds, width);
    groups := Group(Query(table, conds), call, width);
    forall key
      ensures RowsWith(Query(table, conds), call, width, key) == if key in keys then RowsFor(table, call, width, key) else []
    {
      BatchHoldsEveryKey(table, call, width, keys, key);
    }
  }
}
