/**
 The emitted WriteLuxo and ReadLuxo as the imperative code they are: appending to the response
 buffer, accumulating the arena length and looping over the decoder's fields.
 */
module GeneratedCode {
  import opened Wire
  import opened SelectionMask
  import opened Wrappers
  import opened RecordCodec
  import opened RecordRoundTrip

  /** The nil-mask fast path of a model checks neither the mask nor the relations. */
  lemma {:induction false} DefaultSelection(d: Decl, f: Field)
    ensures Selected(d, f, []) <==> Encodable(f) && (f.kind.RelationKind? ==> d.isType)
    ensures SelectionMaskFields([]) == []
  {
  }

  method ArenaLength(d: Decl, v: Value, mask: Bytes) returns (n: nat)
    requires v.Record? && |v.row| == |d.fields|
    ensures n == ArenaLen(d, v, mask, |v.row|)
  {
    n := 0;
    for i := 0 to |d.fields|
      invariant n == ArenaLen(d, v, mask, i)
    {
      if IsArenaField(d.fields[i]) && Selected(d, d.fields[i], mask) && v.row[i].StringValue? {
        n := n + |v.row[i].s|;
      }
    }
  }

  method WriteLuxo(s: Schema, d: Decl, v: Value, mask: Bytes, buf: Bytes) returns (out: Bytes)
    requires WellFormed(s) && WellFormedDecl(s, d) && Conforms(s, d, v) && Loaded(s, d, v, mask)
    requires |buf| + |WriteRecord(s, d, v, mask)| < TWO63
    ensures out == buf + WriteRecord(s, d, v, mask)
    decreases v, 2
  {
    hide WellFormed, Conforms, Loaded, WriteFields, WriteField, Varint, ArenaLen, FieldMaskHas, Selected, Encodable, FieldConforms, FieldLoaded;
    Shape(s, d, v);
    ArenaStarts(d, v, mask);
    ArenaWithinRecord(s, d, v, mask, 0);
    var n := ArenaLength(d, v, mask);
    out := AppendVarint(buf, n);
    ghost var all := out + WriteFields(s, d, v, mask, 0);
    var i := 0;
    while i < |d.fields|
      invariant i <= |d.fields|
      invariant out + WriteFields(s, d, v, mask, i) == all
    {
      var f := d.fields[i];
      FieldWritten(s, d, v, mask, i);
      DefaultSelection(d, f);
      var selected :=
        if |mask| == 0 && !d.isType then Encodable(f) && !f.kind.RelationKind? else Selected(d, f, mask);
      if selected {
        Associative(out, Varint(f.id) + WriteField(s, f, v.row[i], mask), WriteFields(s, d, v, mask, i + 1));
        out := AppendField(s, f, v.row[i], mask, out);
      }
      i := i + 1;
    }
    NothingLeft(s, d, v, mask);
    out := out + [0];
    Associative(buf, Varint(n), WriteFields(s, d, v, mask, 0));
    Associative(buf, Varint(n), WriteFields(s, d, v, mask, 0) + [0]);
    Associative(buf + Varint(n), WriteFields(s, d, v, mask, 0), [0]);
  }

  lemma {:induction false} Associative(a: Bytes, b: Bytes, c: Bytes)
    ensures a + (b + c) == (a + b) + c
  {
  }

  lemma {:induction false} NothingLeft(s: Schema, d: Decl, v: Value, mask: Bytes)
    requires Conforms(s, d, v) && Loaded(s, d, v, mask) && |v.row| == |d.fields|
    ensures forall out: Bytes :: out + WriteFields(s, d, v, mask, |d.fields|) == out
  {
    hide Conforms, Loaded, WriteField;
    assert WriteFields(s, d, v, mask, |d.fields|) == [];
  }

  /** The bytes from field `i` on: the field's ID and value, if it is selected, and what follows. */
  lemma {:induction false} FieldWritten(s: Schema, d: Decl, v: Value, mask: Bytes, i: nat)
    requires Conforms(s, d, v) && Loaded(s, d, v, mask) && i < |v.row|
    ensures |v.row| == |d.fields| && FieldConforms(s, d.fields[i], v.row[i])
    ensures var f, rest := d.fields[i], WriteFields(s, d, v, mask, i + 1);
      if Selected(d, f, mask) then
        && FieldLoaded(s, f, v.row[i], mask)
        && WriteFields(s, d, v, mask, i) == (Varint(f.id) + WriteField(s, f, v.row[i], mask)) + rest
      else
        WriteFields(s, d, v, mask, i) == rest
  {
    hide Conforms, Loaded, WriteField, WriteFields, Varint, FieldLoaded, FieldConforms, ArenaPrefix, Partial, FieldMaskHas;
    Shape(s, d, v);
    FieldStep(s, d, v, mask, i);
    if Selected(d, d.fields[i], mask) {
      Associative(Varint(d.fields[i].id), WriteField(s, d.fields[i], v.row[i], mask), WriteFields(s, d, v, mask, i + 1));
    }
  }

  /** A field's ID and value, relations through their own writer with the child mask. */
  method AppendField(s: Schema, f: Field, x: Value, mask: Bytes, buf: Bytes) returns (out: Bytes)
    requires WellFormed(s) && FieldConforms(s, f, x) && FieldLoaded(s, f, x, mask) && f.id < TWO63
    requires |buf| + |Varint(f.id) + WriteField(s, f, x, mask)| < TWO63
    ensures out == buf + (Varint(f.id) + WriteField(s, f, x, mask))
    decreases x, 4
  {
    hide WriteRecord, WriteRows, WriteScalars, WriteScalar, Varint, Conforms, Loaded;
    out := AppendVarint(buf, f.id);
    ghost var header := out;
    match f.kind
    case ScalarKind(sc) =>
      if f.isList {
        out := AppendVarint(out, |x.items|);
        out := AppendScalars(sc, x.items, out);
      } else if f.nullable {
        if x.Nil? {
          out := out + [0];
        } else {
          out := AppendScalar(sc, x, out + [1]);
        }
      } else {
        out := AppendScalar(sc, x, out);
      }
      assert out == header + WriteField(s, f, x, mask);
    case RelationKind(t) =>
      var child := ChildMask(mask, f);
      if f.isList {
        out := AppendVarint(out, |x.items|);
        out := AppendRows(s, s[t], x.items, child, out);
      } else if f.nullable {
        if x.Nil? {
          out := out + [0];
        } else {
          out := WriteLuxo(s, s[t], x, child, out + [1]);
        }
      } else {
        out := WriteLuxo(s, s[t], x, child, out);
      }
      assert out == header + WriteField(s, f, x, mask);
  }

  /** The rows of a list of records, one writer after the other. */
  method AppendRows(s: Schema, d: Decl, items: seq<Value>, mask: Bytes, buf: Bytes) returns (out: Bytes)
    requires WellFormed(s) && WellFormedDecl(s, d) && RowsConform(s, d, items) && RowsLoaded(s, d, items, mask)
    requires |buf| + |WriteRows(s, d, items, mask)| < TWO63
    ensures out == buf + WriteRows(s, d, items, mask)
    decreases items, 4
  {
    hide WellFormed, WellFormedDecl, RowsConform, RowsLoaded, WriteRecord, WriteRows;
    out := buf;
    ghost var all := buf + WriteRows(s, d, items, mask);
    assert items[0..] == items;
    var k := 0;
    while k < |items|
      invariant k <= |items|
      invariant RowsConform(s, d, items[k..]) && RowsLoaded(s, d, items[k..], mask)
      invariant out + WriteRows(s, d, items[k..], mask) == all
    {
      RowsSplit(s, d, items[k..], mask);
      assert items[k..][1..] == items[k + 1..] && items[k..][0] == items[k];
      Associative(out, WriteRecord(s, d, items[k], mask), WriteRows(s, d, items[k + 1..], mask));
      out := WriteLuxo(s, d, items[k], mask, out);
      k := k + 1;
    }
    assert items[k..] == [];
    NothingWritten(s, d, mask);
    assert out + [] == out;
  }

  lemma {:induction false} NothingWritten(s: Schema, d: Decl, mask: Bytes)
    ensures WriteRows(s, d, [], mask) == []
  {
  }

  method AppendScalar(sc: Scalar, x: Value, buf: Bytes) returns (out: Bytes)
    requires ScalarConforms(sc, x)
    ensures out == buf + WriteScalar(sc, x)
  {
    hide Varint, LittleEndian;
    match sc
    case IntScalar =>
      out := AppendVarint(buf, ZigZag(x.i));
    case FloatScalar =>
      out := buf + LittleEndian(x.bits, 8);
    case BooleanScalar =>
      out := if x.b then buf + [1] else buf + [0];
    case StringScalar =>
      out := AppendVarint(buf, |x.s|);
      out := out + x.s;
      Associative(buf, Varint(|x.s|), x.s);
    case EnumScalar =>
      out := AppendVarint(buf, |x.s|);
      out := out + x.s;
      Associative(buf, Varint(|x.s|), x.s);
    case UuidScalar =>
      out := buf + x.u;
  }

  method AppendScalars(sc: Scalar, items: seq<Value>, buf: Bytes) returns (out: Bytes)
    requires forall k :: 0 <= k < |items| ==> ScalarConforms(sc, items[k])
    ensures out == buf + WriteScalars(sc, items)
  {
    hide WriteScalar;
    out := buf;
    var k := 0;
    while k < |items|
      invariant k <= |items|
      invariant out + WriteScalars(sc, items[k..]) == buf + WriteScalars(sc, items)
    {
      ghost var before, enc := out, WriteScalar(sc, items[k]);
      assert items[k..][1..] == items[k + 1..];
      assert before + (enc + WriteScalars(sc, items[k + 1..])) == buf + WriteScalars(sc, items);
      out := AppendScalar(sc, items[k], out);
      assert (before + enc) + WriteScalars(sc, items[k + 1..]) == buf + WriteScalars(sc, items);
      k := k + 1;
    }
    assert items[k..] == [];
  }

  /** The decoding loop over NextField, with the struct, the arena and the offset as its state. */
  method ReadLuxo(s: Schema, d: Decl, buf: Bytes, start: nat) returns (r: Parsed<Decoded>)
    requires start <= |buf|
    ensures r == ReadRecord(s, d, buf, start)
    decreases |buf| - start, 0
  {
    hide ReadField, FieldIndex, ReadVarint;
    var (size, n) := ReadVarint(buf, start);
    if n <= 0 || (HasArena(d) && size > MAX_ARENA_SIZE) {
      return Bad;
    }
    var off, row, arena := start + n, ZeroRow(d), [];
    while true
      invariant start < off <= |buf| && |row| == |d.fields|
      invariant ReadFields(s, d, buf, off, row, size, arena) == ReadRecord(s, d, buf, start)
      decreases |buf| - off
    {
      var (id, m) := ReadVarint(buf, off);
      if m <= 0 {
        return Bad;
      }
      if id == 0 {
        return Got(Decoded(Record(row), size, arena), off + m);
      }
      var index := FieldIndex(d, ToInt(id), 0);
      if index.None? {
        return Bad;
      }
      var field := ReadFieldCase(s, d.fields[index.value], buf, off + m, row[index.value], size, arena);
      if field.Bad? {
        return Bad;
      }
      row := row[index.value := field.value.0];
      off, arena := field.next, field.value.1;
    }
  }

  /** One `case` of the field switch. */
  method ReadFieldCase(s: Schema, f: Field, buf: Bytes, off: nat, current: Value, size: nat, arena: Bytes)
    returns (r: Parsed<(Value, Bytes)>)
    requires off <= |buf|
    ensures r == ReadField(s, f, buf, off, current, size, arena)
    decreases |buf| - off, 2
  {
    hide ReadRecord, ReadArrayLength, ReadFlag, ReadScalar;
    if f.isList {
      var count := ReadArrayLength(buf, off);
      if count.Bad? {
        return Bad;
      }
      match f.kind
      case ScalarKind(sc) =>
        var xs := ReadScalars(sc, buf, count.next, count.value);
        return if xs.Bad? then Bad else Got((List(xs.value), arena), xs.next);
      case RelationKind(t) =>
        if t !in s {
          return Bad;
        }
        var rows := ReadRowLoop(s, s[t], buf, count.next, count.value);
        return if rows.Bad? then Bad else Got((List(rows.value), arena), rows.next);
    }
    var at := off;
    if f.nullable {
      var flag := ReadFlag(buf, off);
      if flag.Bad? {
        return Bad;
      }
      if !flag.value {
        match f.kind
        case RelationKind(_) => return Got((current, arena), flag.next);
        case ScalarKind(EnumScalar) => return Got((current, arena), flag.next);
        case ScalarKind(UuidScalar) => return Got((current, arena), flag.next);
        case ScalarKind(_) => return Got((Nil, arena), flag.next);
      }
      at := flag.next;
    }
    match f.kind
    case ScalarKind(sc) =>
      var x := ReadScalar(sc, buf, at);
      if x.Bad? {
        return Bad;
      }
      return Got((x.value, if x.value.StringValue? then CopyToArena(arena, size, x.value.s) else arena), x.next);
    case RelationKind(t) =>
      if t !in s {
        return Bad;
      }
      var nested := ReadLuxo(s, s[t], buf, at);
      return if nested.Bad? then Bad else Got((nested.value.value, arena), nested.next);
  }

  method ReadRowLoop(s: Schema, d: Decl, buf: Bytes, start: nat, n: nat) returns (r: Parsed<seq<Value>>)
    requires start <= |buf|
    ensures r == ReadRows(s, d, buf, start, n)
    decreases |buf| - start, 1
  {
    hide ReadRecord;
    var items, off := [], start;
    ghost var all := ReadRows(s, d, buf, start, n);
    assert all.Got? ==> [] + all.value == all.value;
    for k := 0 to n
      invariant start <= off <= |buf|
      invariant all == Prepend(items, ReadRows(s, d, buf, off, n - k))
    {
      var x := ReadLuxo(s, d, buf, off);
      if x.Bad? {
        return Bad;
      }
      ghost var before := items;
      items := items + [x.value.value];
      assert forall rest: seq<Value> :: before + ([x.value.value] + rest) == items + rest;
      off := x.next;
    }
    assert items + [] == items;
    return Got(items, off);
  }

  ghost function Prepend(items: seq<Value>, rest: Parsed<seq<Value>>): Parsed<seq<Value>> {
    match rest
    case Bad => Bad
    case Got(xs, next) => Got(items + xs, next)
  }
}
