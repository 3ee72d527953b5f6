/**
 ReadLuxo inverts WriteLuxo: what is read back is exactly the masked projection, the written bytes
 are consumed exactly and the arena is filled to exactly its declared size, if and only if the
 written lists and arenas respect the reader's limits; otherwise the reader reports an error.
 */
module RecordRoundTrip {
  import opened Wire
  import opened SelectionMask
  import opened Wrappers
  import opened RecordCodec

  lemma {:induction false} EightBytes()
    ensures Pow256(8) == TWO64
  {
    assert Pow256(4) == 256 * (256 * (256 * 256));
    assert Pow256(8) == 256 * (256 * (256 * (256 * Pow256(4))));
  }

  lemma {:induction false} ScalarRoundTrip(sc: Scalar, x: Value, buf: Bytes, off: nat)
    requires ScalarConforms(sc, x) && At(buf, off, WriteScalar(sc, x))
    ensures ReadScalar(sc, buf, off) == Got(x, off + |WriteScalar(sc, x)|)
  {
    hide Varint, VarintLoop, Pow256;
    match sc
    case IntScalar =>
      VarintRoundTrip(buf, off, ZigZag(x.i));
    case FloatScalar =>
      EightBytes();
      LittleEndianRoundTrip(x.bits, 8);
    case BooleanScalar =>
      assert buf[off] == Flag(x.b)[0];
    case StringScalar =>
      BytesRoundTrip(buf, off, x.s);
    case EnumScalar =>
      BytesRoundTrip(buf, off, x.s);
    case UuidScalar =>
  }

  lemma {:induction false} ScalarsRoundTrip(sc: Scalar, items: seq<Value>, buf: Bytes, off: nat)
    requires forall k :: 0 <= k < |items| ==> ScalarConforms(sc, items[k])
    requires At(buf, off, WriteScalars(sc, items))
    ensures ReadScalars(sc, buf, off, |items|) == Got(items, off + |WriteScalars(sc, items)|)
  {
    hide ReadScalar, WriteScalar, ScalarConforms;
    if items != [] {
      var enc := WriteScalar(sc, items[0]);
      AtConcat(buf, off, enc, WriteScalars(sc, items[1..]));
      ScalarRoundTrip(sc, items[0], buf, off);
      ScalarsRoundTrip(sc, items[1..], buf, off + |enc|);
      assert [items[0]] + items[1..] == items;
    }
  }

  lemma {:induction false} ArrayLengthReads(buf: Bytes, off: nat, n: nat)
    requires n < TWO63 && At(buf, off, Varint(n))
    ensures ReadArrayLength(buf, off) ==
      if n <= MAX_ARRAY_ELEMENTS then Got(n, off + |Varint(n)|) else Bad
  {
    VarintRoundTrip(buf, off, n);
  }

  lemma {:induction false} FlagReads(buf: Bytes, off: nat, b: bool, rest: Bytes)
    requires At(buf, off, Flag(b) + rest)
    ensures ReadFlag(buf, off) == Got(b, off + 1) && At(buf, off + 1, rest)
  {
    AtConcat(buf, off, Flag(b), rest);
    assert buf[off] == Flag(b)[0];
  }

  lemma {:induction false} FieldIndexFinds(s: Schema, d: Decl, i: nat, j: nat)
    requires WellFormedDecl(s, d) && j <= i < |d.fields| && Encodable(d.fields[i])
    ensures FieldIndex(d, d.fields[i].id, j) == Some(i)
    decreases i - j
  {
    if j < i {
      FieldIndexFinds(s, d, i, j + 1);
    }
  }

  // ---------------------------------------------------------------- arena accounting

  lemma {:induction false} ArenaLenIsPrefixLength(d: Decl, v: Value, mask: Bytes, i: nat)
    requires v.Record? && i <= |v.row| == |d.fields|
    ensures |ArenaPrefix(d, v, mask, i)| == ArenaLen(d, v, mask, i)
  {
    if i > 0 {
      ArenaLenIsPrefixLength(d, v, mask, i - 1);
    }
  }

  lemma {:induction false} ArenaStarts(d: Decl, v: Value, mask: Bytes)
    requires v.Record? && |v.row| == |d.fields|
    ensures ArenaLen(d, v, mask, 0) == 0 && ArenaPrefix(d, v, mask, 0) == []
  {
  }

  lemma {:induction false} ArenaLenGrows(d: Decl, v: Value, mask: Bytes, i: nat, j: nat)
    requires v.Record? && i <= j <= |v.row| == |d.fields|
    ensures ArenaLen(d, v, mask, i) <= ArenaLen(d, v, mask, j)
    decreases j
  {
    hide Selected, IsArenaField;
    if i < j {
      ArenaLenGrows(d, v, mask, i, j - 1);
    }
  }

  lemma {:induction false} StringWithinField(s: Schema, f: Field, x: Value, mask: Bytes)
    requires FieldConforms(s, f, x) && FieldLoaded(s, f, x, mask)
    ensures IsArenaField(f) && x.StringValue? ==> |x.s| < |WriteField(s, f, x, mask)|
  {
    hide WriteRecord, WriteRows, WriteScalars, Conforms, Loaded;
  }

  /** The writer's declared arena size never exceeds what it writes after it. */
  lemma {:induction false} ArenaWithinRecord(s: Schema, d: Decl, v: Value, mask: Bytes, i: nat)
    requires Conforms(s, d, v) && Loaded(s, d, v, mask) && i <= |v.row|
    ensures ArenaLen(d, v, mask, |v.row|) - ArenaLen(d, v, mask, i) <= |WriteFields(s, d, v, mask, i)|
    decreases |v.row| - i
  {
    Shape(s, d, v);
    hide Selected, Conforms, Loaded, WriteField, Varint, IsArenaField, FieldConforms, FieldLoaded;
    if i < |v.row| {
      ArenaWithinRecord(s, d, v, mask, i + 1);
      ConformsAt(s, d, v, i);
      if Selected(d, d.fields[i], mask) {
        LoadedAt(s, d, v, mask, i);
        StringWithinField(s, d.fields[i], v.row[i], mask);
      }
    }
  }

  lemma {:induction false} Shape(s: Schema, d: Decl, v: Value)
    requires Conforms(s, d, v)
    ensures v.Record? && |v.row| == |d.fields|
  {
  }

  lemma {:induction false} ConformsAt(s: Schema, d: Decl, v: Value, i: nat)
    requires Conforms(s, d, v) && i < |v.row|
    ensures |v.row| == |d.fields| && FieldConforms(s, d.fields[i], v.row[i])
  {
  }

  lemma {:induction false} LoadedAt(s: Schema, d: Decl, v: Value, mask: Bytes, i: nat)
    requires Conforms(s, d, v) && Loaded(s, d, v, mask) && i < |v.row| && Selected(d, d.fields[i], mask)
    ensures FieldLoaded(s, d.fields[i], v.row[i], mask)
  {
  }

  // ---------------------------------------------------------------- the round trip

  /** The struct after the first `i` fields have been read. */
  ghost function Partial(s: Schema, d: Decl, v: Value, mask: Bytes, i: nat): (row: seq<Value>)
    requires Conforms(s, d, v) && i <= |v.row|
    ensures |row| == |v.row|
  {
    seq(|v.row|, j requires 0 <= j < |v.row| =>
      if j < i && Selected(d, d.fields[j], mask) then ProjectField(s, d.fields[j], v.row[j], mask)
      else Zero(d.fields[j]))
  }

  ghost predicate Writable(s: Schema, d: Decl, v: Value, mask: Bytes) {
    WellFormed(s) && WellFormedDecl(s, d) && Conforms(s, d, v) && Loaded(s, d, v, mask)
  }

  /** Main result: reading a written record, wherever it sits in a buffer. */
  lemma {:induction false} RoundTrip(s: Schema, d: Decl, v: Value, mask: Bytes, buf: Bytes, off: nat)
    requires Writable(s, d, v, mask)
    requires |buf| < TWO63 && At(buf, off, WriteRecord(s, d, v, mask))
    ensures ReadRecord(s, d, buf, off) ==
      if Fits(s, d, v, mask) then
        Got(Decoded(Project(s, d, v, mask), ArenaLen(d, v, mask, |v.row|), ArenaPrefix(d, v, mask, |v.row|)),
            off + |WriteRecord(s, d, v, mask)|)
      else Bad
    ensures |ArenaPrefix(d, v, mask, |v.row|)| == ArenaLen(d, v, mask, |v.row|)
    decreases v, 2, 0
  {
    hide Selected, Conforms, Loaded, FitsFrom, Project, HasArena, ArenaLen, ArenaPrefix;
    hide Varint, ReadVarint, ReadFields, WriteFields, WellFormed, WellFormedDecl;
    Shape(s, d, v);
    var size := ArenaLen(d, v, mask, |v.row|);
    var body := WriteFields(s, d, v, mask, 0) + [0];
    ArenaStarts(d, v, mask);
    ArenaLenIsPrefixLength(d, v, mask, |v.row|);
    ArenaWithinRecord(s, d, v, mask, 0);
    AtConcat(buf, off, Varint(size), body);
    VarintRoundTrip(buf, off, size);
    var start := off + |Varint(size)|;
    assert ZeroRow(d) == Partial(s, d, v, mask, 0);
    FieldsRoundTrip(s, d, v, mask, 0, buf, start, size);
  }

  lemma {:induction false} FieldsRoundTrip(s: Schema, d: Decl, v: Value, mask: Bytes, i: nat, buf: Bytes, off: nat, size: nat)
    requires Writable(s, d, v, mask) && i <= |v.row|
    requires |buf| < TWO63 && At(buf, off, WriteFields(s, d, v, mask, i) + [0])
    requires size == ArenaLen(d, v, mask, |v.row|)
    ensures ReadFields(s, d, buf, off, Partial(s, d, v, mask, i), size, ArenaPrefix(d, v, mask, i)) ==
      if FitsFrom(s, d, v, mask, i) then
        Got(Decoded(Project(s, d, v, mask), size, ArenaPrefix(d, v, mask, |v.row|)),
            off + |WriteFields(s, d, v, mask, i)| + 1)
      else Bad
    decreases v, 1, |v.row| - i
  {
    hide Conforms, Loaded, FieldConforms, FieldLoaded, FitsFrom, FieldFits, ProjectField, Project, WellFormed, WellFormedDecl;
    hide Varint, ReadFields, ReadField, WriteField, WriteFields, Encodable, Partial, ArenaPrefix, ArenaLen, IsArenaField, At, Selected, Zero;
    Shape(s, d, v);
    if i == |v.row| {
      AllFieldsRead(s, d, v, mask, buf, off, size);
    } else {
      FieldStep(s, d, v, mask, i);
      FitsFromSplit(s, d, v, mask, i);
      if !Selected(d, d.fields[i], mask) {
        FieldsRoundTrip(s, d, v, mask, i + 1, buf, off, size);
      } else {
        var f, x := d.fields[i], v.row[i];
        var row, arena := Partial(s, d, v, mask, i), ArenaPrefix(d, v, mask, i);
        var enc, rest := WriteField(s, f, x, mask), WriteFields(s, d, v, mask, i + 1);
        assert Varint(f.id) + (enc + rest) + [0] == Varint(f.id) + (enc + (rest + [0]));
        AtConcat(buf, off, Varint(f.id), enc + (rest + [0]));
        var start := off + |Varint(f.id)|;
        AtConcat(buf, start, enc, rest + [0]);
        ReadFieldsStep(s, d, i, buf, off, row, size, arena);
        ArenaRoom(d, v, mask, i);
        FieldRoundTrip(s, f, x, mask, buf, start, size, arena);
        if FieldFits(s, f, x, mask) {
          FieldsRoundTrip(s, d, v, mask, i + 1, buf, start + |enc|, size);
        }
      }
    }
  }

  /** What field `i` adds to the bytes written, to the struct read so far and to the arena. */
  lemma {:induction false} FieldStep(s: Schema, d: Decl, v: Value, mask: Bytes, i: nat)
    requires Conforms(s, d, v) && Loaded(s, d, v, mask) && i < |v.row|
    ensures |v.row| == |d.fields| && FieldConforms(s, d.fields[i], v.row[i])
    ensures var f, x := d.fields[i], v.row[i];
      var row, row' := Partial(s, d, v, mask, i), Partial(s, d, v, mask, i + 1);
      var arena, arena' := ArenaPrefix(d, v, mask, i), ArenaPrefix(d, v, mask, i + 1);
      var rest := WriteFields(s, d, v, mask, i + 1);
      if Selected(d, f, mask) then
        && Encodable(f) && FieldLoaded(s, f, x, mask)
        && WriteFields(s, d, v, mask, i) == Varint(f.id) + (WriteField(s, f, x, mask) + rest)
        && row[i] == Zero(f) && row' == row[i := ProjectField(s, f, x, mask)]
        && arena' == arena + (if IsArenaField(f) && x.StringValue? then x.s else [])
      else
        WriteFields(s, d, v, mask, i) == rest && row' == row && arena' == arena
  {
    hide Conforms, Loaded, WriteField, ProjectField, Varint, FieldLoaded, FieldConforms, Zero, FieldMaskHas, SelectionMaskFields;
    Shape(s, d, v);
    ConformsAt(s, d, v, i);
    if Selected(d, d.fields[i], mask) {
      LoadedAt(s, d, v, mask, i);
    }
    assert ArenaPrefix(d, v, mask, i + 1) == ArenaPrefix(d, v, mask, i) + ArenaPiece(d, d.fields[i], v.row[i], mask);
  }

  /** The declared size leaves room for the string of a selected field. */
  lemma {:induction false} ArenaRoom(d: Decl, v: Value, mask: Bytes, i: nat)
    requires v.Record? && i < |v.row| == |d.fields| && Selected(d, d.fields[i], mask)
    ensures IsArenaField(d.fields[i]) && v.row[i].StringValue? ==>
      |ArenaPrefix(d, v, mask, i)| + |v.row[i].s| <= ArenaLen(d, v, mask, |v.row|)
  {
    ArenaLenIsPrefixLength(d, v, mask, i);
    ArenaLenGrows(d, v, mask, i + 1, |v.row|);
  }

  lemma {:induction false} AllFieldsRead(s: Schema, d: Decl, v: Value, mask: Bytes, buf: Bytes, off: nat, size: nat)
    requires Conforms(s, d, v) && Loaded(s, d, v, mask)
    requires At(buf, off, WriteFields(s, d, v, mask, |v.row|) + [0])
    ensures FitsFrom(s, d, v, mask, |v.row|) && WriteFields(s, d, v, mask, |v.row|) == []
    ensures ReadFields(s, d, buf, off, Partial(s, d, v, mask, |v.row|), size, ArenaPrefix(d, v, mask, |v.row|)) ==
      Got(Decoded(Project(s, d, v, mask), size, ArenaPrefix(d, v, mask, |v.row|)), off + 1)
  {
    hide Conforms, Loaded, ProjectField, ReadField, ArenaPrefix, Selected, FieldFits;
    Shape(s, d, v);
    assert WriteFields(s, d, v, mask, |v.row|) + [0] == Varint(0);
    VarintRoundTrip(buf, off, 0);
    assert Record(Partial(s, d, v, mask, |v.row|)) == Project(s, d, v, mask);
  }

  lemma {:induction false} FitsFromSplit(s: Schema, d: Decl, v: Value, mask: Bytes, i: nat)
    requires Conforms(s, d, v) && i < |v.row|
    ensures FitsFrom(s, d, v, mask, i) <==>
      (Selected(d, d.fields[i], mask) ==> FieldFits(s, d.fields[i], v.row[i], mask)) && FitsFrom(s, d, v, mask, i + 1)
  {
    hide FieldFits, Selected;
  }

  /** One turn of the field loop over a field ID that was written at `off`. */
  lemma {:induction false} ReadFieldsStep(s: Schema, d: Decl, i: nat, buf: Bytes, off: nat, row: seq<Value>, size: nat, arena: Bytes)
    requires WellFormedDecl(s, d) && i < |d.fields| == |row| && Encodable(d.fields[i])
    requires At(buf, off, Varint(d.fields[i].id))
    ensures ReadFields(s, d, buf, off, row, size, arena) ==
      match ReadField(s, d.fields[i], buf, off + |Varint(d.fields[i].id)|, row[i], size, arena)
      case Bad => Bad
      case Got((x, arena'), next) => ReadFields(s, d, buf, next, row[i := x], size, arena')
  {
    hide ReadVarint, ReadField, Varint, FieldIndex;
    VarintRoundTrip(buf, off, d.fields[i].id);
    FieldIndexFinds(s, d, i, 0);
  }

  lemma {:induction false} FieldRoundTrip(s: Schema, f: Field, x: Value, mask: Bytes, buf: Bytes, off: nat, size: nat, arena: Bytes)
    requires WellFormed(s) && FieldConforms(s, f, x) && FieldLoaded(s, f, x, mask)
    requires |buf| < TWO63 && At(buf, off, WriteField(s, f, x, mask))
    requires IsArenaField(f) && x.StringValue? ==> |arena| + |x.s| <= size
    ensures ReadField(s, f, buf, off, Zero(f), size, arena) ==
      if FieldFits(s, f, x, mask) then
        Got((ProjectField(s, f, x, mask), arena + (if IsArenaField(f) && x.StringValue? then x.s else [])),
            off + |WriteField(s, f, x, mask)|)
      else Bad
    decreases x, 3, 0
  {
    hide ReadPresent, WriteRecord, WriteScalar, Project, Fits, WellFormed, ReadFlag, At;
    if f.isList {
      ListRoundTrip(s, f, x, mask, buf, off, size, arena);
      assert arena + [] == arena;
    } else if f.nullable && x.Nil? {
      assert Flag(false) + [] == WriteField(s, f, x, mask);
      FlagReads(buf, off, false, []);
      assert arena + [] == arena;
    } else if f.nullable {
      FlagReads(buf, off, true, WritePresent(s, f, x, mask));
      PresentRoundTrip(s, f, x, mask, buf, off + 1, size, arena);
    } else {
      PresentRoundTrip(s, f, x, mask, buf, off, size, arena);
    }
  }

  ghost function WritePresent(s: Schema, f: Field, x: Value, mask: Bytes): Bytes
    requires FieldConforms(s, f, x) && FieldLoaded(s, f, x, mask) && !f.isList && !x.Nil?
  {
    match f.kind
    case ScalarKind(sc) => WriteScalar(sc, x)
    case RelationKind(t) => WriteRecord(s, s[t], x, ChildMask(mask, f))
  }

  lemma {:induction false} PresentRoundTrip(s: Schema, f: Field, x: Value, mask: Bytes, buf: Bytes, off: nat, size: nat, arena: Bytes)
    requires WellFormed(s) && FieldConforms(s, f, x) && FieldLoaded(s, f, x, mask) && !f.isList && !x.Nil?
    requires |buf| < TWO63 && At(buf, off, WritePresent(s, f, x, mask))
    requires IsArenaField(f) && x.StringValue? ==> |arena| + |x.s| <= size
    ensures ReadPresent(s, f, buf, off, size, arena) ==
      if FieldFits(s, f, x, mask) then
        Got((ProjectField(s, f, x, mask), arena + (if IsArenaField(f) && x.StringValue? then x.s else [])),
            off + |WritePresent(s, f, x, mask)|)
      else Bad
    decreases x, 2, 1
  {
    match f.kind
    case ScalarKind(sc) =>
      ScalarRoundTrip(sc, x, buf, off);
      assert arena + [] == arena;
    case RelationKind(t) =>
      RoundTrip(s, s[t], x, ChildMask(mask, f), buf, off);
      assert arena + [] == arena;
  }

  lemma {:induction false} ListRoundTrip(s: Schema, f: Field, x: Value, mask: Bytes, buf: Bytes, off: nat, size: nat, arena: Bytes)
    requires WellFormed(s) && FieldConforms(s, f, x) && FieldLoaded(s, f, x, mask) && f.isList
    requires |buf| < TWO63 && At(buf, off, WriteField(s, f, x, mask))
    ensures ReadField(s, f, buf, off, Zero(f), size, arena) ==
      if FieldFits(s, f, x, mask) then
        Got((ProjectField(s, f, x, mask), arena), off + |WriteField(s, f, x, mask)|)
      else Bad
    decreases x, 2, 1
  {
    hide ReadRows, ReadScalars, WriteRows, WriteScalars, ProjectRows, RowsFit;
    hide ReadArrayLength, Varint, At, Conforms, Loaded, ScalarConforms, ChildMask, WellFormedDecl;
    var n := |x.items|;
    match f.kind
    case ScalarKind(sc) =>
      AtConcat(buf, off, Varint(n), WriteScalars(sc, x.items));
      ArrayLengthReads(buf, off, n);
      ScalarsRoundTrip(sc, x.items, buf, off + |Varint(n)|);
    case RelationKind(t) =>
      AtConcat(buf, off, Varint(n), WriteRows(s, s[t], x.items, ChildMask(mask, f)));
      ArrayLengthReads(buf, off, n);
      RowsRoundTrip(s, s[t], x.items, ChildMask(mask, f), buf, off + |Varint(n)|);
  }

  lemma {:induction false} RowsRoundTrip(s: Schema, d: Decl, items: seq<Value>, mask: Bytes, buf: Bytes, off: nat)
    requires WellFormed(s) && WellFormedDecl(s, d)
    requires RowsConform(s, d, items) && RowsLoaded(s, d, items, mask)
    requires |buf| < TWO63 && At(buf, off, WriteRows(s, d, items, mask))
    ensures ReadRows(s, d, buf, off, |items|) ==
      if RowsFit(s, d, items, mask) then
        Got(ProjectRows(s, d, items, mask), off + |WriteRows(s, d, items, mask)|)
      else Bad
    decreases items, 0, 0
  {
    hide WriteRecord, ReadRecord, Project, Fits, Conforms, Loaded, WellFormed, WellFormedDecl, RowsFit, ProjectRows;
    hide RowsConform, RowsLoaded;
    if items == [] {
      NoRows(s, d, mask);
    } else {
      hide WriteRows, ReadRows;
      RowsSplit(s, d, items, mask);
      var enc := WriteRecord(s, d, items[0], mask);
      AtConcat(buf, off, enc, WriteRows(s, d, items[1..], mask));
      RoundTrip(s, d, items[0], mask, buf, off);
      ReadRowsStep(s, d, buf, off, |items|);
      RowsRoundTrip(s, d, items[1..], mask, buf, off + |enc|);
    }
  }

  lemma {:induction false} NoRows(s: Schema, d: Decl, mask: Bytes)
    ensures RowsFit(s, d, [], mask) && ProjectRows(s, d, [], mask) == []
  {
  }

  lemma {:induction false} ReadRowsStep(s: Schema, d: Decl, buf: Bytes, off: nat, n: nat)
    requires off <= |buf| && n > 0
    ensures ReadRows(s, d, buf, off, n) ==
      match ReadRecord(s, d, buf, off)
      case Bad => Bad
      case Got(x, next) =>
        match ReadRows(s, d, buf, next, n - 1)
        case Bad => Bad
        case Got(xs, end) => Got([x.value] + xs, end)
  {
    hide ReadRecord;
  }

  lemma {:induction false} RowsSplit(s: Schema, d: Decl, items: seq<Value>, mask: Bytes)
    requires items != [] && RowsConform(s, d, items) && RowsLoaded(s, d, items, mask)
    ensures Conforms(s, d, items[0]) && Loaded(s, d, items[0], mask)
    ensures RowsConform(s, d, items[1..]) && RowsLoaded(s, d, items[1..], mask)
    ensures WriteRows(s, d, items, mask) ==
      WriteRecord(s, d, items[0], mask) + WriteRows(s, d, items[1..], mask)
    ensures RowsFit(s, d, items, mask) <==> Fits(s, d, items[0], mask) && RowsFit(s, d, items[1..], mask)
    ensures ProjectRows(s, d, items, mask) == [Project(s, d, items[0], mask)] + ProjectRows(s, d, items[1..], mask)
  {
    hide Fits, Project, Conforms, WriteRecord, Loaded;
  }

  // ---------------------------------------------------------------- any input

  lemma {:induction false} FieldWithinArena(s: Schema, f: Field, buf: Bytes, off: nat, current: Value, size: nat, arena: Bytes)
    requires off <= |buf| && |arena| <= size
    ensures var r := ReadField(s, f, buf, off, current, size, arena); r.Got? ==> |r.value.1| <= size
  {
    hide ReadRecord, ReadRows, ReadScalars, ReadScalar, ReadArrayLength, ReadFlag;
  }

  lemma {:induction false} FieldsWithinArena(s: Schema, d: Decl, buf: Bytes, off: nat, row: seq<Value>, size: nat, arena: Bytes)
    requires off <= |buf| && |row| == |d.fields| && |arena| <= size
    ensures var r := ReadFields(s, d, buf, off, row, size, arena);
      r.Got? ==> |r.value.arena| <= r.value.arenaSize == size && r.value.value.Record? && |r.value.value.row| == |d.fields|
    decreases |buf| - off
  {
    hide ReadField, ReadVarint, FieldIndex;
    var (id, n) := ReadVarint(buf, off);
    if n > 0 && id != 0 {
      var index := FieldIndex(d, ToInt(id), 0);
      if index.Some? {
        var i := index.value;
        FieldWithinArena(s, d.fields[i], buf, off + n, row[i], size, arena);
        var field := ReadField(s, d.fields[i], buf, off + n, row[i], size, arena);
        if field.Got? {
          FieldsWithinArena(s, d, buf, field.next, row[i := field.value.0], size, field.value.1);
        }
      }
    }
  }

  /** Whatever the bytes, a decoded record has all its fields and its arena is not filled beyond the declared
      size, which is within the limit wherever strings are copied. */
  lemma {:induction false} ArenaNeverOverfull(s: Schema, d: Decl, buf: Bytes, off: nat)
    requires off <= |buf|
    ensures var r := ReadRecord(s, d, buf, off);
      r.Got? ==>
        && |r.value.arena| <= r.value.arenaSize && r.value.value.Record? && |r.value.value.row| == |d.fields|
        && ((exists i :: 0 <= i < |d.fields| && IsArenaField(d.fields[i]) && Encodable(d.fields[i])) ==> r.value.arenaSize <= 67_108_864)
  {
    hide ReadFields, ReadVarint;
    var (size, n) := ReadVarint(buf, off);
    if n > 0 {
      FieldsWithinArena(s, d, buf, off + n, ZeroRow(d), size, []);
    }
  }

  // ---------------------------------------------------------------- consequences

  /** A record on its own is decodable exactly when it respects the reader's limits. */
  lemma {:induction false} DecodableIffFits(s: Schema, d: Decl, v: Value, mask: Bytes)
    requires Writable(s, d, v, mask) && |WriteRecord(s, d, v, mask)| < TWO63
    ensures var bytes := WriteRecord(s, d, v, mask);
      && (ReadRecord(s, d, bytes, 0).Got? <==> Fits(s, d, v, mask))
      && (Fits(s, d, v, mask) ==>
        && ReadRecord(s, d, bytes, 0).next == |bytes|
        && ReadRecord(s, d, bytes, 0).value.value == Project(s, d, v, mask)
        && |ReadRecord(s, d, bytes, 0).value.arena| == ReadRecord(s, d, bytes, 0).value.arenaSize)
  {
    hide ReadRecord, WriteRecord, Fits, Project, Conforms, Loaded, ArenaLen, ArenaPrefix;
    RoundTrip(s, d, v, mask, WriteRecord(s, d, v, mask), 0);
  }

  /** Without a mask, a model all of whose fields are encodable scalars is reproduced as it is. */
  lemma {:induction false} DefaultProjectionIsIdentity(s: Schema, d: Decl, v: Value)
    requires Conforms(s, d, v)
    requires forall i :: 0 <= i < |d.fields| ==> Encodable(d.fields[i]) && d.fields[i].kind.ScalarKind?
    ensures Project(s, d, v, []) == v
  {
    assert SelectionMaskFields([]) == [];
    assert Project(s, d, v, []).row == v.row;
  }

  /** The writer has no length limit but the reader has: one boolean more than it accepts, and
      everything that was written is unreadable. */
  lemma {:induction false} OversizedListIsUnreadable()
    ensures exists s: Schema, d: Decl, v: Value ::
      Writable(s, d, v, []) && |WriteRecord(s, d, v, [])| < TWO63 && ReadRecord(s, d, WriteRecord(s, d, v, []), 0).Bad?
  {
    var f := Field("flags", 1, ScalarKind(BooleanScalar), false, true, true);
    var d := Decl([f], false);
    var items := seq(MAX_ARRAY_ELEMENTS + 1, _ => BooleanValue(false));
    var v := Record([List(items)]);
    var s: Schema := map[];
    assert FieldConforms(s, f, v.row[0]);
    assert Conforms(s, d, v);
    assert Loaded(s, d, v, []);
    assert SelectionMaskFields([]) == [];
    assert Selected(d, f, []);
    assert !FieldFits(s, f, v.row[0], []);
    assert !Fits(s, d, v, []);
    OneListSize(s, d, f, items);
    DecodableIffFits(s, d, v, []);
  }

  lemma {:induction false} OneListSize(s: Schema, d: Decl, f: Field, items: seq<Value>)
    requires d == Decl([f], false) && f == Field("flags", 1, ScalarKind(BooleanScalar), false, true, true)
    requires |items| < TWO63 / 4 && forall k :: 0 <= k < |items| ==> items[k].BooleanValue?
    requires Conforms(s, d, Record([List(items)])) && Loaded(s, d, Record([List(items)]), [])
    ensures |WriteRecord(s, d, Record([List(items)]), [])| < TWO63
  {
    var v := Record([List(items)]);
    BooleansSize(items);
    VarintSize(|items|);
    assert ArenaLen(d, v, [], 1) == 0;
    assert WriteFields(s, d, v, [], 1) == [];
    assert |v.row| == 1 && d.fields[0] == f && v.row[0] == List(items);
    assert WriteField(s, f, v.row[0], []) == Varint(|items|) + WriteScalars(BooleanScalar, items);
    assert |WriteFields(s, d, v, [], 0)| <= |Varint(1)| + |WriteField(s, f, v.row[0], [])|;
  }

  lemma {:induction false} BooleansSize(items: seq<Value>)
    requires forall k :: 0 <= k < |items| ==> items[k].BooleanValue?
    ensures |WriteScalars(BooleanScalar, items)| == |items|
  {
    if items != [] {
      BooleansSize(items[1..]);
    }
  }

  lemma {:induction false} VarintSize(v: nat)
    ensures |Varint(v)| <= v + 1
  {
    if v >= 128 {
      VarintSize(v / 128);
    }
  }
}
