/**
 The two ends of a named load across modules, as the emitted code runs them: the handler of the
 owning module and the caller's batch function. Together they refine the one-key-at-a-time load.
 */
module RemoteLoad {
  import opened Wire
  import opened SelectionMask
  import opened Wrappers
  import opened RecordCodec
  import opened RecordRoundTrip
  import opened GeneratedCode
  import opened GroupedLoad
  import opened GroupedTransport

  /** For each key, its rows one key at a time. */
  function GroupsFor(table: seq<TableRow>, call: Call, width: nat, keys: seq<Key>): (groups: seq<seq<Value>>)
    requires RowsWide(table, width) && ValidCall(call, width)
    ensures |groups| == |keys|
  {
    seq(|keys|, i requires 0 <= i < |keys| => RowsFor(table, call, width, keys[i]))
  }

  /** What the owning module answers. */
  function Answer(s: Schema, d: Decl, table: seq<TableRow>, mask: Bytes, call: Call, keys: seq<Key>): Bytes
    requires Servable(s, d, table, mask) && ValidCall(call, |d.fields|)
  {
    ServableWide(s, d, table, mask);
    GroupsForSendable(s, d, table, mask, call, keys);
    Response(s, d, GroupsFor(table, call, |d.fields|, keys), mask)
  }

  lemma {:induction false} GroupsForSendable(s: Schema, d: Decl, table: seq<TableRow>, mask: Bytes, call: Call, keys: seq<Key>)
    requires Servable(s, d, table, mask) && ValidCall(call, |d.fields|)
    ensures RowsWide(table, |d.fields|)
    ensures AllSendable(s, d, GroupsFor(table, call, |d.fields|, keys), mask)
  {
    hide Servable, Sendable, RowsFor;
    ServableWide(s, d, table, mask);
    forall i | 0 <= i < |keys| ensures Sendable(s, d, RowsFor(table, call, |d.fields|, keys[i]), mask) {
      RowsForSendable(s, d, table, mask, call, keys[i]);
    }
  }

  // ---------------------------------------------------------------- the handler

  method ParallelCondition(call: Call, columns: seq<seq<Value>>) returns (c: Cond)
    requires SameLengths(columns) && |columns| == |call.args|
    ensures c == KeyCondition(call, Rebuilt(columns))
  {
    if |call.args| == 1 {
      c := In(call.args[0], columns[0]);
      assert c == KeyCondition(call, Rebuilt(columns)) by {
        var keys := Rebuilt(columns);
        assert seq(|keys|, i requires 0 <= i < |keys| => keys[i][0]) == columns[0];
      }
      return;
    }
    var groups: seq<Cond> := [];
    for i := 0 to |columns[0]|
      invariant |groups| == i && forall j :: 0 <= j < i ==> groups[j] == EqualTo(call, Rebuilt(columns)[j])
    {
      var equalities: seq<Cond> := [];
      for a := 0 to |call.args|
        invariant |equalities| == a && forall b :: 0 <= b < a ==> equalities[b] == Eq(call.args[b], columns[b][i])
      {
        equalities := equalities + [Eq(call.args[a], columns[a][i])];
      }
      assert AllOf(equalities) == EqualTo(call, Rebuilt(columns)[i]);
      groups := groups + [AllOf(equalities)];
    }
    c := AnyOf(groups);
  }

  lemma {:induction false} ItemsStep(s: Schema, d: Decl, rows: seq<Value>, mask: Bytes, k: nat)
    requires k < |rows| && Sendable(s, d, rows[k..], mask)
    ensures Sendable(s, d, rows[k + 1..], mask) && Conforms(s, d, rows[k]) && Loaded(s, d, rows[k], mask)
    ensures Items(s, d, rows[k..], mask) == LengthPrefixed(WriteRecord(s, d, rows[k], mask)) + Items(s, d, rows[k + 1..], mask)
  {
    hide Sendable, Conforms, Loaded, WriteRecord, LengthPrefixed;
    SendableSplit(s, d, rows[k..], mask);
    assert rows[k..][1..] == rows[k + 1..];
  }

  lemma {:induction false} NoItemsLeft(s: Schema, d: Decl, rows: seq<Value>, mask: Bytes)
    requires Sendable(s, d, rows[|rows|..], mask)
    ensures Items(s, d, rows[|rows|..], mask) == []
  {
  }

  lemma {:induction false} GroupsStep(s: Schema, d: Decl, groups: seq<seq<Value>>, mask: Bytes, k: nat)
    requires k < |groups| && AllSendable(s, d, groups[k..], mask)
    ensures AllSendable(s, d, groups[k + 1..], mask) && Sendable(s, d, groups[k], mask)
    ensures GroupsBytes(s, d, groups[k..], mask) == GroupBytes(s, d, groups[k], mask) + GroupsBytes(s, d, groups[k + 1..], mask)
  {
    hide Sendable, GroupBytes;
    assert groups[k..][0] == groups[k];
    assert groups[k..][1..] == groups[k + 1..];
  }

  lemma {:induction false} NoGroupsLeft(s: Schema, d: Decl, groups: seq<seq<Value>>, mask: Bytes)
    requires AllSendable(s, d, groups[|groups|..], mask)
    ensures GroupsBytes(s, d, groups[|groups|..], mask) == []
  {
  }

  /** One group: the records are written into a scratch buffer and copied with their length. */
  method AppendGroup(s: Schema, d: Decl, rows: seq<Value>, mask: Bytes, buf: Bytes) returns (out: Bytes)
    requires WellFormed(s) && WellFormedDecl(s, d) && Sendable(s, d, rows, mask)
    requires |buf| + |GroupBytes(s, d, rows, mask)| < TWO63
    ensures out == buf + GroupBytes(s, d, rows, mask)
  {
    hide WellFormed, WellFormedDecl, Sendable, Conforms, Loaded, WriteRecord, Varint, Items;
    ItemsLong(s, d, rows, mask);
    out := AppendVarint(buf, |rows|);
    ghost var all := buf + GroupBytes(s, d, rows, mask);
    Associative(buf, Varint(|rows|), Items(s, d, rows, mask));
    assert rows[0..] == rows;
    for k := 0 to |rows|
      invariant Sendable(s, d, rows[k..], mask) && out + Items(s, d, rows[k..], mask) == all
    {
      ItemsStep(s, d, rows, mask, k);
      ghost var raw := WriteRecord(s, d, rows[k], mask);
      Associative(out, LengthPrefixed(raw), Items(s, d, rows[k + 1..], mask));
      Associative(out, Varint(|raw|), raw);
      var tmp := WriteLuxo(s, d, rows[k], mask, []);
      out := AppendVarint(out, |tmp|);
      out := out + tmp;
    }
    NoItemsLeft(s, d, rows, mask);
    assert out + [] == out;
  }

  /** Appends the answer for the keys rebuilt from the arrays, or rejects arrays of unequal lengths. */
  method HandleLoad(s: Schema, d: Decl, table: seq<TableRow>, mask: Bytes, call: Call, columns: seq<seq<Value>>, buf: Bytes) returns (r: Option<Bytes>)
    requires Servable(s, d, table, mask) && ValidCall(call, |d.fields|) && |columns| == |call.args|
    requires SameLengths(columns) ==> |buf| + |Answer(s, d, table, mask, call, Rebuilt(columns))| < TWO63
    requires |columns[0]| < TWO63
    ensures r == if SameLengths(columns) then Some(buf + Answer(s, d, table, mask, call, Rebuilt(columns))) else None
  {
    hide Conforms, Loaded, WellFormed, WellFormedDecl, Query, RowsWith, RowsFor, Grouped, GroupBytes, Varint, GroupsBytes, AllSendable;
    for a := 1 to |columns|
      invariant forall b :: 0 <= b < a ==> |columns[b]| == |columns[0]|
    {
      if |columns[a]| != |columns[0]| {
        return None;
      }
    }
    ghost var keys, width := Rebuilt(columns), |d.fields|;
    ServableWide(s, d, table, mask);
    var c := ParallelCondition(call, columns);
    var conds := [c];
    if call.softDelete {
      conds := conds + [NotDeleted];
    }
    QueryWide(table, conds, |d.fields|);
    var grouped := Group(Query(table, conds), call, |d.fields|);
    GroupsForSendable(s, d, table, mask, call, keys);
    ghost var groups := GroupsFor(table, call, width, keys);
    var out := AppendVarint(buf, |columns[0]|);
    ghost var all := buf + Answer(s, d, table, mask, call, keys);
    Associative(buf, Varint(|groups|), GroupsBytes(s, d, groups, mask));
    assert groups[0..] == groups;
    for i := 0 to |columns[0]|
      invariant AllSendable(s, d, groups[i..], mask) && out + GroupsBytes(s, d, groups[i..], mask) == all
    {
      var key := seq(|columns|, a requires 0 <= a < |columns| => columns[a][i]);
      assert key == keys[i];
      GroupOfKey(grouped, table, conds, call, width, keys, i);
      GroupsStep(s, d, groups, mask, i);
      Associative(out, GroupBytes(s, d, groups[i], mask), GroupsBytes(s, d, groups[i + 1..], mask));
      out := AppendGroup(s, d, Get(grouped, key), mask, out);
    }
    NoGroupsLeft(s, d, groups, mask);
    assert out + [] == out;
    return Some(out);
  }

  lemma {:induction false} GroupOfKey(grouped: Groups, table: seq<TableRow>, conds: seq<Cond>, call: Call, width: nat, keys: seq<Key>, i: nat)
    requires RowsWide(table, width) && ValidCall(call, width) && KeysFor(call, keys) && i < |keys|
    requires conds == Conditions(call, keys) && Wide(Query(table, conds), width)
    requires Grouped(grouped, Query(table, conds), call, width)
    ensures Get(grouped, keys[i]) == RowsFor(table, call, width, keys[i])
  {
    hide Query, RowsWith, RowsFor, Conditions;
    BatchHoldsEveryKey(table, call, width, keys, keys[i]);
  }

  // ---------------------------------------------------------------- the caller

  method Transpose(keys: seq<Key>, n: nat) returns (columns: seq<seq<Value>>)
    requires forall i :: 0 <= i < |keys| ==> |keys[i]| == n
    ensures columns == Transposed(keys, n)
  {
    columns := [];
    for a := 0 to n
      invariant |columns| == a && forall b :: 0 <= b < a ==> columns[b] == Transposed(keys, n)[b]
    {
      var column: seq<Value> := [];
      for i := 0 to |keys|
        invariant |column| == i && forall j :: 0 <= j < i ==> column[j] == keys[j][a]
      {
        column := column + [keys[i][a]];
      }
      assert column == Transposed(keys, n)[a];
      columns := columns + [column];
    }
  }

  /** The groups under their keys, a later one of the same key replacing an earlier one. */
  function AsMap(keys: seq<Key>, groups: seq<seq<Value>>): Groups
    requires |keys| == |groups|
    decreases |keys|
  {
    if keys == [] then map[]
    else
      var n := |keys| - 1;
      AsMap(keys[..n], groups[..n])[keys[n] := groups[n]]
  }

  ghost function After<T>(done: seq<T>, rest: Parsed<seq<T>>): Parsed<seq<T>> {
    match rest case Bad => Bad case Got(xs, next) => Got(done + xs, next)
  }

  lemma {:induction false} AfterOne<T>(done: seq<T>, x: T, rest: Parsed<seq<T>>)
    ensures After(done, After([x], rest)) == After(done + [x], rest)
  {
    if rest.Got? {
      assert done + ([x] + rest.value) == (done + [x]) + rest.value;
    }
  }

  method DecodeItemsLoop(s: Schema, d: Decl, resp: Bytes, start: nat, count: nat) returns (r: Parsed<seq<Value>>)
    requires start <= |resp|
    ensures r == DecodeItems(s, d, resp, start, count)
  {
    hide ReadBytes, ReadRecord;
    var items, off := [], start;
    ghost var all := DecodeItems(s, d, resp, start, count);
    assert all == After([], all) by {
      if all.Got? {
        assert [] + all.value == all.value;
      }
    }
    for j := 0 to count
      invariant start <= off <= |resp| && all == After(items, DecodeItems(s, d, resp, off, count - j))
    {
      var raw := ReadBytes(resp, off);
      if raw.Bad? {
        return Bad;
      }
      var item := ReadLuxo(s, d, raw.value, 0);
      if item.Bad? {
        return Bad;
      }
      AfterOne(items, item.value.value, DecodeItems(s, d, resp, raw.next, count - j - 1));
      items, off := items + [item.value.value], raw.next;
    }
    assert items + [] == items;
    return Got(items, off);
  }

  lemma {:induction false} NothingBefore<T>(all: Parsed<seq<T>>)
    ensures After([], all) == all
  {
    if all.Got? {
      assert [] + all.value == all.value;
    }
  }

  lemma {:induction false} AsMapOne(keys: seq<Key>, i: nat, done: seq<seq<Value>>, items: seq<Value>)
    requires i < |keys| && |done| == i
    ensures AsMap(keys[..i + 1], done + [items]) == AsMap(keys[..i], done)[keys[i] := items]
  {
    assert keys[..i + 1][..i] == keys[..i] && (done + [items])[..i] == done;
  }

  lemma {:induction false} DecodeGroupsStep(s: Schema, d: Decl, resp: Bytes, off: nat, n: nat, done: seq<seq<Value>>)
    requires off <= |resp| && n > 0
    ensures var g := DecodeGroup(s, d, resp, off);
      After(done, DecodeGroups(s, d, resp, off, n)) == if g.Bad? then Bad else After(done + [g.value], DecodeGroups(s, d, resp, g.next, n - 1))
  {
    hide DecodeGroup;
    var g := DecodeGroup(s, d, resp, off);
    if g.Got? {
      AfterOne(done, g.value, DecodeGroups(s, d, resp, g.next, n - 1));
    }
  }

  /** Decodes any response: wrong counts, truncated items and trailing bytes are errors. */
  method DecodeGrouped(s: Schema, d: Decl, resp: Bytes, keys: seq<Key>) returns (r: Option<Groups>)
    ensures var groups := DecodeResponse(s, d, resp, |keys|);
      r == if groups.Some? then Some(AsMap(keys, groups.value)) else None
  {
    hide DecodeItems, DecodeGroups, ReadVarint, AsMap, After;
    var (groupCount, n) := ReadVarint(resp, 0);
    if n <= 0 || groupCount != |keys| {
      return None;
    }
    var result: Groups, off: nat := map[], n;
    ghost var done: seq<seq<Value>> := [];
    ghost var all := DecodeGroups(s, d, resp, n, |keys|);
    NothingBefore(all);
    assert keys[..0] == [];
    NoKeys(keys);
    for i := 0 to |keys|
      invariant off <= |resp| && |done| == i && result == AsMap(keys[..i], done)
      invariant all == After(done, DecodeGroups(s, d, resp, off, |keys| - i))
    {
      DecodeGroupsStep(s, d, resp, off, |keys| - i, done);
      var (itemCount, consumed) := ReadVarint(resp, off);
      if consumed <= 0 {
        return None;
      }
      var items := DecodeItemsLoop(s, d, resp, off + consumed, itemCount);
      if items.Bad? {
        return None;
      }
      AsMapOne(keys, i, done, items.value);
      result := result[keys[i] := items.value];
      done, off := done + [items.value], items.next;
    }
    assert keys[..|keys|] == keys;
    AllDone(s, d, resp, off, done);
    return if off != |resp| then None else Some(result);
  }

  lemma {:induction false} NoKeys(keys: seq<Key>)
    ensures AsMap(keys[..0], []) == map[]
  {
  }

  lemma {:induction false} AllDone(s: Schema, d: Decl, resp: Bytes, off: nat, done: seq<seq<Value>>)
    requires off <= |resp|
    ensures After(done, DecodeGroups(s, d, resp, off, 0)) == Got(done, off)
  {
    assert done + [] == done;
  }

  /** Every row asked for is within the limits of the record reader. */
  ghost predicate AllFit(s: Schema, d: Decl, table: seq<TableRow>, mask: Bytes, call: Call, keys: seq<Key>)
    requires Servable(s, d, table, mask) && ValidCall(call, |d.fields|)
  {
    ServableWide(s, d, table, mask);
    GroupsForSendable(s, d, table, mask, call, keys);
    GroupsFit(s, d, GroupsFor(table, call, |d.fields|, keys), mask)
  }

  /** The remote answer for a key: the projection of the rows the key selects. */
  ghost function RemoteRows(s: Schema, d: Decl, table: seq<TableRow>, mask: Bytes, call: Call, key: Key): seq<Value>
    requires Servable(s, d, table, mask) && ValidCall(call, |d.fields|)
  {
    RowsForSendable(s, d, table, mask, call, key);
    ProjectRows(s, d, RowsFor(table, call, |d.fields|, key), mask)
  }

  lemma {:induction false} AsMapOf(keys: seq<Key>, groups: seq<seq<Value>>, rows: Key -> seq<Value>)
    requires |keys| == |groups| && forall i :: 0 <= i < |keys| ==> groups[i] == rows(keys[i])
    ensures forall key :: key in AsMap(keys, groups) <==> key in keys
    ensures forall key :: key in AsMap(keys, groups) ==> AsMap(keys, groups)[key] == rows(key)
    decreases |keys|
  {
    if keys != [] {
      var n := |keys| - 1;
      AsMapOf(keys[..n], groups[..n], rows);
      assert keys == keys[..n] + [keys[n]];
    }
  }

  /** The RPC-backed load: for every table, flag and list of keys it fails exactly when a row exceeds the
      reader's limits; otherwise each key has the masked projection of the rows it selects, and
      nothing else is in the result. */
  method LoadRemote(s: Schema, d: Decl, table: seq<TableRow>, mask: Bytes, call: Call, keys: seq<Key>) returns (r: Option<Groups>)
    requires WellFormed(s) && WellFormedDecl(s, d) && |keys| < TWO63
    requires forall i :: 0 <= i < |table| ==> Conforms(s, d, table[i].value) && Loaded(s, d, table[i].value, mask)
    requires |call.args| > 0 && forall i :: 0 <= i < |call.args| ==> call.args[i] < |d.fields|
    requires forall i :: 0 <= i < |keys| ==> |keys[i]| == |call.args|
    requires |Answer(s, d, table, mask, call, keys)| < TWO63
    ensures r.Some? <==> AllFit(s, d, table, mask, call, keys)
    ensures r.Some? ==> forall key :: key in r.value <==> key in keys
    ensures r.Some? ==> forall key :: key in r.value ==> r.value[key] == RemoteRows(s, d, table, mask, call, key)
  {
    hide Response, DecodeResponse, RowsFor, AsMap, ProjectRows, RowsConform, RowsLoaded, GroupsFit, Conforms, Loaded, WellFormed, WellFormedDecl;
    var columns := Transpose(keys, |call.args|);
    KeysSurvive(keys, |call.args|);
    var resp := HandleLoad(s, d, table, mask, call, columns, []);
    assert [] + Answer(s, d, table, mask, call, keys) == Answer(s, d, table, mask, call, keys);
    r := DecodeGrouped(s, d, resp.value, keys);
    ServableWide(s, d, table, mask);
    GroupsForSendable(s, d, table, mask, call, keys);
    ghost var groups := GroupsFor(table, call, |d.fields|, keys);
    ResponseRoundTrip(s, d, groups, mask);
    if r.Some? {
      RemoteGroups(s, d, table, mask, call, keys);
    }
  }

  lemma {:induction false} RemoteGroups(s: Schema, d: Decl, table: seq<TableRow>, mask: Bytes, call: Call, keys: seq<Key>)
    requires Servable(s, d, table, mask) && ValidCall(call, |d.fields|)
    ensures RowsWide(table, |d.fields|) && AllSendable(s, d, GroupsFor(table, call, |d.fields|, keys), mask)
    ensures var m := AsMap(keys, ProjectGroups(s, d, GroupsFor(table, call, |d.fields|, keys), mask));
      && (forall key :: key in m <==> key in keys)
      && (forall key :: key in m ==> m[key] == RemoteRows(s, d, table, mask, call, key))
  {
    hide Servable, Sendable, RowsFor, ProjectRows, AsMap, RowsConform, RowsLoaded;
    ServableWide(s, d, table, mask);
    GroupsForSendable(s, d, table, mask, call, keys);
    var groups := ProjectGroups(s, d, GroupsFor(table, call, |d.fields|, keys), mask);
    AsMapOf(keys, groups, key => RemoteRows(s, d, table, mask, call, key));
  }

  /** The two deployment modes side by side: the remote load refines the local one, with the same rows per key, in the same order, missing
      counting as empty. */
  method LoadInBothModes(s: Schema, d: Decl, table: seq<TableRow>, mask: Bytes, call: Call, keys: seq<Key>) returns (remote: Option<Groups>, local: Groups)
    requires WellFormed(s) && WellFormedDecl(s, d) && |keys| < TWO63
    requires forall i :: 0 <= i < |table| ==> Conforms(s, d, table[i].value) && Loaded(s, d, table[i].value, mask)
    requires |call.args| > 0 && forall i :: 0 <= i < |call.args| ==> call.args[i] < |d.fields|
    requires forall i :: 0 <= i < |keys| ==> |keys[i]| == |call.args|
    requires |Answer(s, d, table, mask, call, keys)| < TWO63
    ensures remote.Some? <==> AllFit(s, d, table, mask, call, keys)
    ensures remote.Some? ==> forall key :: key in keys ==>
      RowsConform(s, d, Get(local, key)) && Get(remote.value, key) == ProjectRows(s, d, Get(local, key), mask)
  {
    hide RowsFor, ProjectRows, Conforms, Loaded, WellFormed, WellFormedDecl;
    ServableWide(s, d, table, mask);
    local := LoadLocal(table, call, |d.fields|, keys);
    remote := LoadRemote(s, d, table, mask, call, keys);
    forall key | key in keys ensures RowsConform(s, d, Get(local, key)) {
      RowsForSendable(s, d, table, mask, call, key);
    }
  }
}
