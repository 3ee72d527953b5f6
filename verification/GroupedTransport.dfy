/**
 The named load across modules: parallel key arrays to the owning module, one group of
 length-prefixed records per key back, decoded by the caller.
 */
module GroupedTransport {
  import opened Wire
  import opened SelectionMask
  import opened Wrappers
  import opened RecordCodec
  import opened RecordRoundTrip
  import opened GeneratedCode
  import opened GroupedLoad

  // ---------------------------------------------------------------- keys as parallel arrays

  function Transposed(keys: seq<Key>, n: nat): (columns: seq<seq<Value>>)
    requires forall i :: 0 <= i < |keys| ==> |keys[i]| == n
    ensures |columns| == n && forall a :: 0 <= a < n ==> |columns[a]| == |keys|
    ensures forall a, i :: 0 <= a < n && 0 <= i < |keys| ==> columns[a][i] == keys[i][a]
  {
    seq(n, a requires 0 <= a < n => seq(|keys|, i requires 0 <= i < |keys| => keys[i][a]))
  }

  predicate SameLengths(columns: seq<seq<Value>>) {
    |columns| > 0 && forall a :: 0 <= a < |columns| ==> |columns[a]| == |columns[0]|
  }

  function Rebuilt(columns: seq<seq<Value>>): (keys: seq<Key>)
    requires SameLengths(columns)
    ensures |keys| == |columns[0]| && forall i :: 0 <= i < |keys| ==> |keys[i]| == |columns|
  {
    seq(|columns[0]|, i requires 0 <= i < |columns[0]| =>
      seq(|columns|, a requires 0 <= a < |columns| => columns[a][i]))
  }

  lemma {:induction false} KeysSurvive(keys: seq<Key>, n: nat)
    requires n > 0 && forall i :: 0 <= i < |keys| ==> |keys[i]| == n
    ensures SameLengths(Transposed(keys, n)) && Rebuilt(Transposed(keys, n)) == keys
  {
    var columns := Transposed(keys, n);
    forall i | 0 <= i < |keys| ensures Rebuilt(columns)[i] == keys[i] {
      assert forall a :: 0 <= a < n ==> Rebuilt(columns)[i][a] == columns[a][i] == keys[i][a];
    }
  }

  // ---------------------------------------------------------------- the response

  /** The table holds values of the model whose selected required relations are loaded. */
  ghost predicate Servable(s: Schema, d: Decl, table: seq<TableRow>, mask: Bytes) {
    && WellFormed(s) && WellFormedDecl(s, d)
    && forall i :: 0 <= i < |table| ==> Conforms(s, d, table[i].value) && Loaded(s, d, table[i].value, mask)
  }

  ghost predicate Sendable(s: Schema, d: Decl, rows: seq<Value>, mask: Bytes) {
    RowsConform(s, d, rows) && RowsLoaded(s, d, rows, mask)
  }

  lemma {:induction false} ServableWide(s: Schema, d: Decl, table: seq<TableRow>, mask: Bytes)
    requires Servable(s, d, table, mask)
    ensures RowsWide(table, |d.fields|)
  {
    forall i | 0 <= i < |table| ensures table[i].value.Record? && |table[i].value.row| == |d.fields| {
      Shape(s, d, table[i].value);
    }
  }

  lemma {:induction false} RowsForSendable(s: Schema, d: Decl, table: seq<TableRow>, mask: Bytes, call: Call, key: Key)
    requires Servable(s, d, table, mask) && ValidCall(call, |d.fields|)
    ensures RowsWide(table, |d.fields|)
    ensures Sendable(s, d, RowsFor(table, call, |d.fields|, key), mask)
    decreases |table|
  {
    hide Conforms, Loaded, WellFormed, WellFormedDecl;
    ServableWide(s, d, table, mask);
    if table != [] {
      RowsForSendable(s, d, table[..|table| - 1], mask, call, key);
    }
  }

  /** Each record with its length in front. */
  function Items(s: Schema, d: Decl, rows: seq<Value>, mask: Bytes): Bytes
    requires Sendable(s, d, rows, mask)
    decreases |rows|
  {
    if rows == [] then []
    else
      SendableSplit(s, d, rows, mask);
      LengthPrefixed(WriteRecord(s, d, rows[0], mask)) + Items(s, d, rows[1..], mask)
  }

  lemma {:induction false} SendableSplit(s: Schema, d: Decl, rows: seq<Value>, mask: Bytes)
    requires Sendable(s, d, rows, mask) && rows != []
    ensures Conforms(s, d, rows[0]) && Loaded(s, d, rows[0], mask) && Sendable(s, d, rows[1..], mask)
  {
    hide Conforms, Loaded;
  }

  /** The number of rows of the group, then the rows. */
  function GroupBytes(s: Schema, d: Decl, rows: seq<Value>, mask: Bytes): Bytes
    requires Sendable(s, d, rows, mask)
  {
    Varint(|rows|) + Items(s, d, rows, mask)
  }

  ghost predicate AllSendable(s: Schema, d: Decl, groups: seq<seq<Value>>, mask: Bytes) {
    forall i :: 0 <= i < |groups| ==> Sendable(s, d, groups[i], mask)
  }

  function GroupsBytes(s: Schema, d: Decl, groups: seq<seq<Value>>, mask: Bytes): Bytes
    requires AllSendable(s, d, groups, mask)
    decreases |groups|
  {
    if groups == [] then [] else GroupBytes(s, d, groups[0], mask) + GroupsBytes(s, d, groups[1..], mask)
  }

  function Response(s: Schema, d: Decl, groups: seq<seq<Value>>, mask: Bytes): Bytes
    requires AllSendable(s, d, groups, mask)
  {
    Varint(|groups|) + GroupsBytes(s, d, groups, mask)
  }

  // ---------------------------------------------------------------- decoding

  function DecodeItem(s: Schema, d: Decl, resp: Bytes, off: nat): (r: Parsed<Value>)
    ensures r.Got? ==> off < r.next <= |resp|
  {
    match ReadBytes(resp, off)
    case Bad => Bad
    case Got(raw, next) =>
      match ReadRecord(s, d, raw, 0)
      case Bad => Bad
      case Got(x, _) => Got(x.value, next)
  }

  function DecodeItems(s: Schema, d: Decl, resp: Bytes, off: nat, n: nat): (r: Parsed<seq<Value>>)
    requires off <= |resp|
    ensures r.Got? ==> off <= r.next <= |resp|
    decreases n
  {
    if n == 0 then Got([], off)
    else match DecodeItem(s, d, resp, off)
      case Bad => Bad
      case Got(x, next) =>
        match DecodeItems(s, d, resp, next, n - 1)
        case Bad => Bad
        case Got(xs, end) => Got([x] + xs, end)
  }

  function DecodeGroup(s: Schema, d: Decl, resp: Bytes, off: nat): (r: Parsed<seq<Value>>)
    requires off <= |resp|
    ensures r.Got? ==> off < r.next <= |resp|
  {
    var (count, n) := ReadVarint(resp, off);
    if n <= 0 then Bad else DecodeItems(s, d, resp, off + n, count)
  }

  function DecodeGroups(s: Schema, d: Decl, resp: Bytes, off: nat, n: nat): (r: Parsed<seq<seq<Value>>>)
    requires off <= |resp|
    ensures r.Got? ==> off <= r.next <= |resp| && |r.value| == n
    decreases n
  {
    if n == 0 then Got([], off)
    else match DecodeGroup(s, d, resp, off)
      case Bad => Bad
      case Got(g, next) =>
        match DecodeGroups(s, d, resp, next, n - 1)
        case Bad => Bad
        case Got(gs, end) => Got([g] + gs, end)
  }

  /** The group count must be that of the keys and nothing may trail. */
  function DecodeResponse(s: Schema, d: Decl, resp: Bytes, keys: nat): (r: Option<seq<seq<Value>>>)
    ensures r.Some? ==> |r.value| == keys
  {
    var (count, n) := ReadVarint(resp, 0);
    if n <= 0 || count != keys then None
    else match DecodeGroups(s, d, resp, n, keys)
      case Bad => None
      case Got(groups, end) => if end != |resp| then None else Some(groups)
  }

  // ---------------------------------------------------------------- round trip

  lemma {:induction false} ItemRoundTrip(s: Schema, d: Decl, v: Value, mask: Bytes, resp: Bytes, off: nat)
    requires Writable(s, d, v, mask)
    requires |resp| < TWO63 && At(resp, off, LengthPrefixed(WriteRecord(s, d, v, mask)))
    ensures DecodeItem(s, d, resp, off) ==
      if Fits(s, d, v, mask) then Got(Project(s, d, v, mask), off + |LengthPrefixed(WriteRecord(s, d, v, mask))|) else Bad
  {
    hide ReadRecord, WriteRecord, Fits, Project, Conforms, Loaded, ArenaLen, ArenaPrefix, ReadBytes, WellFormed, WellFormedDecl;
    var raw := WriteRecord(s, d, v, mask);
    BytesRoundTrip(resp, off, raw);
    assert At(raw, 0, raw);
    RoundTrip(s, d, v, mask, raw, 0);
  }

  lemma {:induction false} ItemsRoundTrip(s: Schema, d: Decl, rows: seq<Value>, mask: Bytes, resp: Bytes, off: nat)
    requires WellFormed(s) && WellFormedDecl(s, d) && Sendable(s, d, rows, mask)
    requires |resp| < TWO63 && At(resp, off, Items(s, d, rows, mask))
    ensures DecodeItems(s, d, resp, off, |rows|) ==
      if RowsFit(s, d, rows, mask) then Got(ProjectRows(s, d, rows, mask), off + |Items(s, d, rows, mask)|) else Bad
    decreases |rows|
  {
    hide WriteRecord, Fits, Project, Conforms, Loaded, DecodeItem, WellFormed, WellFormedDecl, LengthPrefixed, Sendable, RowsFit, ProjectRows, At;
    if rows == [] {
      NoItems(s, d, mask);
    } else {
      SendableSplit(s, d, rows, mask);
      FitSplit(s, d, rows, mask);
      var enc := LengthPrefixed(WriteRecord(s, d, rows[0], mask));
      AtConcat(resp, off, enc, Items(s, d, rows[1..], mask));
      ItemRoundTrip(s, d, rows[0], mask, resp, off);
      ItemsRoundTrip(s, d, rows[1..], mask, resp, off + |enc|);
    }
  }

  lemma {:induction false} NoItems(s: Schema, d: Decl, mask: Bytes)
    ensures RowsConform(s, d, []) && RowsFit(s, d, [], mask) && ProjectRows(s, d, [], mask) == []
  {
  }

  lemma {:induction false} FitSplit(s: Schema, d: Decl, rows: seq<Value>, mask: Bytes)
    requires Sendable(s, d, rows, mask) && rows != []
    ensures Sendable(s, d, rows[1..], mask) && Conforms(s, d, rows[0])
    ensures RowsFit(s, d, rows, mask) <==> Fits(s, d, rows[0], mask) && RowsFit(s, d, rows[1..], mask)
    ensures ProjectRows(s, d, rows, mask) == [Project(s, d, rows[0], mask)] + ProjectRows(s, d, rows[1..], mask)
  {
    hide Conforms, Loaded, Fits, Project;
    SendableSplit(s, d, rows, mask);
    assert forall k :: 1 <= k < |rows| ==> rows[k] == rows[1..][k - 1];
  }

  ghost predicate GroupsFit(s: Schema, d: Decl, groups: seq<seq<Value>>, mask: Bytes)
    requires AllSendable(s, d, groups, mask)
  {
    forall i :: 0 <= i < |groups| ==> RowsFit(s, d, groups[i], mask)
  }

  ghost function ProjectGroups(s: Schema, d: Decl, groups: seq<seq<Value>>, mask: Bytes): (r: seq<seq<Value>>)
    requires AllSendable(s, d, groups, mask)
    ensures |r| == |groups|
  {
    seq(|groups|, i requires 0 <= i < |groups| => ProjectRows(s, d, groups[i], mask))
  }

  lemma {:induction false} GroupRoundTrip(s: Schema, d: Decl, rows: seq<Value>, mask: Bytes, resp: Bytes, off: nat)
    requires WellFormed(s) && WellFormedDecl(s, d) && Sendable(s, d, rows, mask)
    requires |resp| < TWO63 && At(resp, off, GroupBytes(s, d, rows, mask))
    ensures off <= |resp|
    ensures DecodeGroup(s, d, resp, off) ==
      if RowsFit(s, d, rows, mask) then Got(ProjectRows(s, d, rows, mask), off + |GroupBytes(s, d, rows, mask)|) else Bad
  {
    hide Conforms, Loaded, WellFormed, WellFormedDecl, Sendable, RowsFit, ProjectRows, Items, DecodeItems, Varint, ReadVarint;
    AtConcat(resp, off, Varint(|rows|), Items(s, d, rows, mask));
    ItemsLong(s, d, rows, mask);
    VarintRoundTrip(resp, off, |rows|);
    ItemsRoundTrip(s, d, rows, mask, resp, off + |Varint(|rows|)|);
  }

  /** Every record takes at least one byte. */
  lemma {:induction false} ItemsLong(s: Schema, d: Decl, rows: seq<Value>, mask: Bytes)
    requires Sendable(s, d, rows, mask)
    ensures |rows| <= |Items(s, d, rows, mask)|
    decreases |rows|
  {
    hide WriteRecord, Conforms, Loaded, Sendable;
    if rows != [] {
      SendableSplit(s, d, rows, mask);
      ItemsLong(s, d, rows[1..], mask);
    }
  }

  lemma {:induction false} GroupsRoundTrip(s: Schema, d: Decl, groups: seq<seq<Value>>, mask: Bytes, resp: Bytes, off: nat)
    requires WellFormed(s) && WellFormedDecl(s, d) && AllSendable(s, d, groups, mask)
    requires |resp| < TWO63 && At(resp, off, GroupsBytes(s, d, groups, mask))
    ensures DecodeGroups(s, d, resp, off, |groups|) ==
      if GroupsFit(s, d, groups, mask) then Got(ProjectGroups(s, d, groups, mask), off + |GroupsBytes(s, d, groups, mask)|) else Bad
    decreases |groups|
  {
    hide WellFormed, WellFormedDecl, Sendable, RowsFit, ProjectRows, DecodeGroup, GroupBytes, At, GroupsFit, ProjectGroups;
    GroupsSplit(s, d, groups, mask);
    if groups != [] {
      AtConcat(resp, off, GroupBytes(s, d, groups[0], mask), GroupsBytes(s, d, groups[1..], mask));
      GroupRoundTrip(s, d, groups[0], mask, resp, off);
      GroupsRoundTrip(s, d, groups[1..], mask, resp, off + |GroupBytes(s, d, groups[0], mask)|);
    }
  }

  lemma {:induction false} GroupsSplit(s: Schema, d: Decl, groups: seq<seq<Value>>, mask: Bytes)
    requires AllSendable(s, d, groups, mask)
    ensures groups == [] ==> GroupsFit(s, d, groups, mask) && ProjectGroups(s, d, groups, mask) == []
    ensures groups != [] ==>
      && RowsConform(s, d, groups[0])
      && (GroupsFit(s, d, groups, mask) <==> RowsFit(s, d, groups[0], mask) && GroupsFit(s, d, groups[1..], mask))
      && ProjectGroups(s, d, groups, mask) == [ProjectRows(s, d, groups[0], mask)] + ProjectGroups(s, d, groups[1..], mask)
  {
    hide RowsConform, RowsLoaded, RowsFit, ProjectRows;
    if groups != [] {
      assert forall i :: 1 <= i < |groups| ==> groups[i] == groups[1..][i - 1];
    }
  }

  /** The response is decoded, to the projected groups and to the last byte, exactly when every row
      is within the limits of the record reader. */
  lemma {:induction false} ResponseRoundTrip(s: Schema, d: Decl, groups: seq<seq<Value>>, mask: Bytes)
    requires WellFormed(s) && WellFormedDecl(s, d) && AllSendable(s, d, groups, mask)
    requires |Response(s, d, groups, mask)| < TWO63 && |groups| < TWO63
    ensures DecodeResponse(s, d, Response(s, d, groups, mask), |groups|) ==
      if GroupsFit(s, d, groups, mask) then Some(ProjectGroups(s, d, groups, mask)) else None
  {
    hide WellFormed, WellFormedDecl, AllSendable, GroupsFit, ProjectGroups, GroupsBytes, DecodeGroups, Varint, ReadVarint;
    var resp := Response(s, d, groups, mask);
    assert At(resp, 0, resp);
    AtConcat(resp, 0, Varint(|groups|), GroupsBytes(s, d, groups, mask));
    VarintRoundTrip(resp, 0, |groups|);
    GroupsRoundTrip(s, d, groups, mask, resp, |Varint(|groups|)|);
  }
}
