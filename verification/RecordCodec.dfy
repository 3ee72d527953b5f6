/**
 What the generated WriteLuxo and ReadLuxo of a declaration do: a self-terminating record
 [arena size][field ID, value]*[0], nested to any depth and restricted by a selection mask.
 */
module RecordCodec {
  import opened Wire
  import opened SelectionMask
  import opened Wrappers

  datatype Scalar = IntScalar | FloatScalar | BooleanScalar | StringScalar | EnumScalar | UuidScalar

  datatype Kind = ScalarKind(scalar: Scalar) | RelationKind(target: string)

  /** A declared field. `exposed` is false for hidden, internal and untyped fields; ID 0 means
      that the lock knows no ID for it. Neither is written or read. */
  datatype Field = Field(name: string, id: nat, kind: Kind, nullable: bool, isList: bool, exposed: bool)

  /** A model, or (`isType`) a type declaration, whose writer has no default projection. */
  datatype Decl = Decl(fields: seq<Field>, isType: bool)

  type Schema = map<string, Decl>

  /** Go values: floats as their bit pattern, strings as bytes, nil pointers, structs as their
      fields in declaration order. Nil and empty slices are not told apart. */
  datatype Value =
    | IntValue(i: int)
    | FloatValue(bits: nat)
    | BooleanValue(b: bool)
    | StringValue(s: Bytes)
    | UuidValue(u: Bytes)
    | Nil
    | Record(row: seq<Value>)
    | List(items: seq<Value>)

  const MAX_ARENA_SIZE := 64 * 1024 * 1024

  // ---------------------------------------------------------------- declarations and values

  predicate Encodable(f: Field) { f.exposed && f.id != 0 }

  /** String and enum fields are decoded into the record's arena, lists of them are not. */
  predicate IsArenaField(f: Field) {
    !f.isList && f.kind.ScalarKind? && (f.kind.scalar.StringScalar? || f.kind.scalar.EnumScalar?)
  }

  predicate HasArena(d: Decl) {
    exists i :: 0 <= i < |d.fields| && IsArenaField(d.fields[i]) && Encodable(d.fields[i])
  }

  /** Relation targets are declared; encodable IDs fit an int and are pairwise distinct. */
  ghost predicate WellFormedDecl(s: Schema, d: Decl) {
    && (forall i :: 0 <= i < |d.fields| ==>
      && (d.fields[i].kind.RelationKind? ==> d.fields[i].kind.target in s)
      && d.fields[i].id < TWO63)
    && (forall i, j :: 0 <= i < j < |d.fields| && Encodable(d.fields[i]) && Encodable(d.fields[j]) ==>
      d.fields[i].id != d.fields[j].id)
  }

  ghost predicate WellFormed(s: Schema) {
    forall name :: name in s ==> WellFormedDecl(s, s[name])
  }

  predicate ScalarConforms(sc: Scalar, x: Value) {
    match sc
    case IntScalar => x.IntValue? && IsInt64(x.i)
    case FloatScalar => x.FloatValue? && x.bits < TWO64
    case BooleanScalar => x.BooleanValue?
    case StringScalar => x.StringValue? && |x.s| < TWO63
    case EnumScalar => x.StringValue? && |x.s| < TWO63
    case UuidScalar => x.UuidValue? && |x.u| == 16
  }

  /** `x` is a value of the Go type of the field. Relations are pointers, hence possibly nil. */
  ghost predicate FieldConforms(s: Schema, f: Field, x: Value)
    decreases x, 2
  {
    if f.isList then
      && x.List? && |x.items| < TWO63
      && match f.kind
         case ScalarKind(sc) => forall k :: 0 <= k < |x.items| ==> ScalarConforms(sc, x.items[k])
         case RelationKind(t) =>
           t in s && RowsConform(s, s[t], x.items)
    else match f.kind
      case ScalarKind(sc) => (f.nullable && x.Nil?) || ScalarConforms(sc, x)
      case RelationKind(t) => t in s && (x.Nil? || Conforms(s, s[t], x))
  }

  ghost predicate RowsConform(s: Schema, d: Decl, items: seq<Value>)
    decreases items, 0
  {
    forall k :: 0 <= k < |items| ==> Conforms(s, d, items[k])
  }

  ghost predicate Conforms(s: Schema, d: Decl, v: Value)
    decreases v, 1
  {
    && v.Record? && |v.row| == |d.fields|
    && forall i :: 0 <= i < |v.row| ==> FieldConforms(s, d.fields[i], v.row[i])
  }

  function ZeroScalar(sc: Scalar): Value {
    match sc
    case IntScalar => IntValue(0)
    case FloatScalar => FloatValue(0)
    case BooleanScalar => BooleanValue(false)
    case StringScalar => StringValue([])
    case EnumScalar => StringValue([])
    case UuidScalar => UuidValue(seq(16, _ => 0))
  }

  /** The Go zero value of a field. */
  function Zero(f: Field): Value {
    if f.isList then List([])
    else if f.nullable || f.kind.RelationKind? then Nil
    else ZeroScalar(f.kind.scalar)
  }

  function ZeroRow(d: Decl): (row: seq<Value>)
    ensures |row| == |d.fields|
  {
    seq(|d.fields|, i requires 0 <= i < |d.fields| => Zero(d.fields[i]))
  }

  // ---------------------------------------------------------------- what a mask selects

  /** A model writes relations only under an explicit selection; a type writes them always. */
  predicate Selected(d: Decl, f: Field, mask: Bytes) {
    && Encodable(f)
    && FieldMaskHas(SelectionMaskFields(mask), f.id)
    && (f.kind.RelationKind? && !d.isType ==> |mask| > 0)
  }

  function ChildMask(mask: Bytes, f: Field): Bytes {
    match SelectionMaskNested(mask, f.id)
    case None => []
    case Some(m) => m
  }

  /** Every selected required relation is loaded, at every depth: the writer dereferences it. */
  ghost predicate Loaded(s: Schema, d: Decl, v: Value, mask: Bytes)
    requires Conforms(s, d, v)
    decreases v, 1
  {
    forall i :: 0 <= i < |v.row| && Selected(d, d.fields[i], mask) ==>
      FieldLoaded(s, d.fields[i], v.row[i], mask)
  }

  ghost predicate FieldLoaded(s: Schema, f: Field, x: Value, mask: Bytes)
    requires FieldConforms(s, f, x)
    decreases x, 2
  {
    match f.kind
    case ScalarKind(_) => true
    case RelationKind(t) =>
      if f.isList then
        RowsLoaded(s, s[t], x.items, ChildMask(mask, f))
      else if x.Nil? then f.nullable
      else Loaded(s, s[t], x, ChildMask(mask, f))
  }

  ghost predicate RowsLoaded(s: Schema, d: Decl, items: seq<Value>, mask: Bytes)
    requires RowsConform(s, d, items)
    decreases items, 0
  {
    forall k :: 0 <= k < |items| ==> Loaded(s, d, items[k], mask)
  }

  /** The reader's limits hold for everything written: list lengths and arena sizes, at every depth. */
  ghost predicate Fits(s: Schema, d: Decl, v: Value, mask: Bytes)
    requires Conforms(s, d, v)
    decreases v, 1
  {
    && (HasArena(d) ==> ArenaLen(d, v, mask, |v.row|) <= MAX_ARENA_SIZE)
    && FitsFrom(s, d, v, mask, 0)
  }

  ghost predicate FitsFrom(s: Schema, d: Decl, v: Value, mask: Bytes, i: nat)
    requires Conforms(s, d, v) && i <= |v.row|
    decreases v, 0
  {
    forall j :: i <= j < |v.row| && Selected(d, d.fields[j], mask) ==>
      FieldFits(s, d.fields[j], v.row[j], mask)
  }

  ghost predicate FieldFits(s: Schema, f: Field, x: Value, mask: Bytes)
    requires FieldConforms(s, f, x)
    decreases x, 2
  {
    && (f.isList ==> |x.items| <= MAX_ARRAY_ELEMENTS)
    && match f.kind
       case ScalarKind(_) => true
       case RelationKind(t) =>
         if f.isList then RowsFit(s, s[t], x.items, ChildMask(mask, f))
         else x.Nil? || Fits(s, s[t], x, ChildMask(mask, f))
  }

  ghost predicate RowsFit(s: Schema, d: Decl, items: seq<Value>, mask: Bytes)
    requires RowsConform(s, d, items)
    decreases items, 0
  {
    forall k :: 0 <= k < |items| ==> Fits(s, d, items[k], mask)
  }

  /** The masked projection: selected fields keep their value (relations projected by the child
      mask), every other field is the zero value of a fresh struct. */
  ghost function Project(s: Schema, d: Decl, v: Value, mask: Bytes): (r: Value)
    requires Conforms(s, d, v)
    ensures r.Record? && |r.row| == |v.row|
    decreases v, 1
  {
    Record(seq(|v.row|, i requires 0 <= i < |v.row| =>
      if Selected(d, d.fields[i], mask) then ProjectField(s, d.fields[i], v.row[i], mask)
      else Zero(d.fields[i])))
  }

  ghost function ProjectField(s: Schema, f: Field, x: Value, mask: Bytes): Value
    requires FieldConforms(s, f, x)
    decreases x, 2
  {
    match f.kind
    case ScalarKind(_) => x
    case RelationKind(t) =>
      if f.isList then List(ProjectRows(s, s[t], x.items, ChildMask(mask, f)))
      else if x.Nil? then Nil
      else Project(s, s[t], x, ChildMask(mask, f))
  }

  ghost function ProjectRows(s: Schema, d: Decl, items: seq<Value>, mask: Bytes): (r: seq<Value>)
    requires RowsConform(s, d, items)
    ensures |r| == |items|
    decreases items, 0
  {
    seq(|items|, k requires 0 <= k < |items| => Project(s, d, items[k], mask))
  }

  // ---------------------------------------------------------------- arena

  /** The string a field puts into the arena. */
  function ArenaPiece(d: Decl, f: Field, x: Value, mask: Bytes): Bytes {
    if IsArenaField(f) && Selected(d, f, mask) && x.StringValue? then x.s else []
  }

  /** The writer's `_arenaLen` after the first `i` fields. */
  function ArenaLen(d: Decl, v: Value, mask: Bytes, i: nat): nat
    requires v.Record? && i <= |v.row| == |d.fields|
  {
    if i == 0 then 0
    else
      ArenaLen(d, v, mask, i - 1) +
      (if IsArenaField(d.fields[i - 1]) && Selected(d, d.fields[i - 1], mask) && v.row[i - 1].StringValue?
       then |v.row[i - 1].s| else 0)
  }

  /** The arena contents the first `i` fields call for. */
  ghost function ArenaPrefix(d: Decl, v: Value, mask: Bytes, i: nat): Bytes
    requires v.Record? && i <= |v.row| == |d.fields|
  {
    if i == 0 then []
    else ArenaPrefix(d, v, mask, i - 1) + ArenaPiece(d, d.fields[i - 1], v.row[i - 1], mask)
  }

  // ---------------------------------------------------------------- the writer

  function WriteScalar(sc: Scalar, x: Value): (enc: Bytes)
    requires ScalarConforms(sc, x)
    ensures |enc| > 0
  {
    match sc
    case IntScalar => Varint(ZigZag(x.i))
    case FloatScalar => LittleEndian(x.bits, 8)
    case BooleanScalar => Flag(x.b)
    case StringScalar => LengthPrefixed(x.s)
    case EnumScalar => LengthPrefixed(x.s)
    case UuidScalar => x.u
  }

  function WriteScalars(sc: Scalar, items: seq<Value>): Bytes
    requires forall k :: 0 <= k < |items| ==> ScalarConforms(sc, items[k])
  {
    if items == [] then [] else WriteScalar(sc, items[0]) + WriteScalars(sc, items[1..])
  }

  function WriteRecord(s: Schema, d: Decl, v: Value, mask: Bytes): (enc: Bytes)
    requires Conforms(s, d, v) && Loaded(s, d, v, mask)
    decreases v, 2, 0
  {
    Varint(ArenaLen(d, v, mask, |v.row|)) + (WriteFields(s, d, v, mask, 0) + [0])
  }

  /** The selected fields from index `i` on, in declaration order. */
  function WriteFields(s: Schema, d: Decl, v: Value, mask: Bytes, i: nat): Bytes
    requires Conforms(s, d, v) && Loaded(s, d, v, mask) && i <= |v.row|
    decreases v, 1, |v.row| - i
  {
    if i == |v.row| then []
    else if Selected(d, d.fields[i], mask) then
      Varint(d.fields[i].id) + (WriteField(s, d.fields[i], v.row[i], mask) + WriteFields(s, d, v, mask, i + 1))
    else WriteFields(s, d, v, mask, i + 1)
  }

  /** A field's value, without its ID. */
  function WriteField(s: Schema, f: Field, x: Value, mask: Bytes): Bytes
    requires FieldConforms(s, f, x) && FieldLoaded(s, f, x, mask)
    decreases x, 3, 0
  {
    match f.kind
    case ScalarKind(sc) =>
      if f.isList then Varint(|x.items|) + WriteScalars(sc, x.items)
      else if f.nullable then (if x.Nil? then Flag(false) else Flag(true) + WriteScalar(sc, x))
      else WriteScalar(sc, x)
    case RelationKind(t) =>
      if f.isList then Varint(|x.items|) + WriteRows(s, s[t], x.items, ChildMask(mask, f))
      else if f.nullable then
        (if x.Nil? then Flag(false) else Flag(true) + WriteRecord(s, s[t], x, ChildMask(mask, f)))
      else WriteRecord(s, s[t], x, ChildMask(mask, f))
  }

  function WriteRows(s: Schema, d: Decl, items: seq<Value>, mask: Bytes): Bytes
    requires RowsConform(s, d, items)
    requires RowsLoaded(s, d, items, mask)
    decreases items, 0, 0
  {
    if items == [] then [] else WriteRecord(s, d, items[0], mask) + WriteRows(s, d, items[1..], mask)
  }

  // ---------------------------------------------------------------- the reader

  /** A decoded record, the arena size it declared and the bytes copied into its arena. */
  datatype Decoded = Decoded(value: Value, arenaSize: nat, arena: Bytes)

  function ReadScalar(sc: Scalar, buf: Bytes, off: nat): (r: Parsed<Value>)
    ensures r.Got? ==> off < r.next <= |buf|
  {
    match sc
    case IntScalar => (match ReadSvarint(buf, off) case Got(i, next) => Got(IntValue(i), next) case Bad => Bad)
    case FloatScalar => (match ReadFixed64(buf, off) case Got(n, next) => Got(FloatValue(n), next) case Bad => Bad)
    case BooleanScalar => (match ReadFlag(buf, off) case Got(b, next) => Got(BooleanValue(b), next) case Bad => Bad)
    case StringScalar => (match ReadBytes(buf, off) case Got(s, next) => Got(StringValue(s), next) case Bad => Bad)
    case EnumScalar => (match ReadBytes(buf, off) case Got(s, next) => Got(StringValue(s), next) case Bad => Bad)
    case UuidScalar => (match ReadFixed16(buf, off) case Got(u, next) => Got(UuidValue(u), next) case Bad => Bad)
  }

  function ReadScalars(sc: Scalar, buf: Bytes, off: nat, n: nat): (r: Parsed<seq<Value>>)
    requires off <= |buf|
    ensures r.Got? ==> off <= r.next <= |buf|
    decreases n
  {
    if n == 0 then Got([], off)
    else match ReadScalar(sc, buf, off)
      case Bad => Bad
      case Got(x, next) =>
        match ReadScalars(sc, buf, next, n - 1)
        case Bad => Bad
        case Got(xs, end) => Got([x] + xs, end)
  }

  /** Copies a string behind what the arena holds; one that does not fit is allocated on its own. */
  function CopyToArena(arena: Bytes, size: nat, b: Bytes): Bytes {
    if |arena| + |b| > size then arena else arena + b
  }

  /** The `switch` on the wire's field ID: the index of the encodable field with that ID. */
  function FieldIndex(d: Decl, id: int, i: nat): (r: Option<nat>)
    requires i <= |d.fields|
    ensures r.Some? ==> i <= r.value < |d.fields|
    decreases |d.fields| - i
  {
    if i == |d.fields| then None
    else if Encodable(d.fields[i]) && d.fields[i].id == id then Some(i)
    else FieldIndex(d, id, i + 1)
  }

  function ReadRecord(s: Schema, d: Decl, buf: Bytes, off: nat): (r: Parsed<Decoded>)
    requires off <= |buf|
    ensures r.Got? ==> off < r.next <= |buf|
    decreases |buf| - off, 0
  {
    var (size, n) := ReadVarint(buf, off);
    if n <= 0 || (HasArena(d) && size > MAX_ARENA_SIZE) then Bad
    else ReadFields(s, d, buf, off + n, ZeroRow(d), size, [])
  }

  /** The field loop: `row` is the struct so far, `arena` the filled part of the arena. */
  function ReadFields(s: Schema, d: Decl, buf: Bytes, off: nat, row: seq<Value>, size: nat, arena: Bytes): (r: Parsed<Decoded>)
    requires off <= |buf| && |row| == |d.fields|
    ensures r.Got? ==> off < r.next <= |buf|
    decreases |buf| - off, 3
  {
    var (id, n) := ReadVarint(buf, off);
    if n <= 0 then Bad
    else if id == 0 then Got(Decoded(Record(row), size, arena), off + n)
    else match FieldIndex(d, ToInt(id), 0)
      case None => Bad
      case Some(i) =>
        match ReadField(s, d.fields[i], buf, off + n, row[i], size, arena)
        case Bad => Bad
        case Got((x, arena'), next) => ReadFields(s, d, buf, next, row[i := x], size, arena')
  }

  /** The kinds whose nullable reader assigns its pointer result as it is. */
  predicate AssignsNil(k: Kind) {
    k.ScalarKind? && !k.scalar.EnumScalar? && !k.scalar.UuidScalar?
  }

  /** Reads a value; a null relation, enum or UUID leaves the field as it was. */
  function ReadField(s: Schema, f: Field, buf: Bytes, off: nat, current: Value, size: nat, arena: Bytes): (r: Parsed<(Value, Bytes)>)
    requires off <= |buf|
    ensures r.Got? ==> off < r.next <= |buf|
    decreases |buf| - off, 2
  {
    if f.isList then
      match ReadArrayLength(buf, off)
      case Bad => Bad
      case Got(n, next) =>
        match f.kind
        case ScalarKind(sc) =>
          (match ReadScalars(sc, buf, next, n) case Bad => Bad case Got(xs, end) => Got((List(xs), arena), end))
        case RelationKind(t) =>
          if t !in s then Bad
          else match ReadRows(s, s[t], buf, next, n) case Bad => Bad case Got(xs, end) => Got((List(xs), arena), end)
    else if f.nullable then
      match ReadFlag(buf, off)
      case Bad => Bad
      case Got(present, next) =>
        if !present then Got((if AssignsNil(f.kind) then Nil else current, arena), next)
        else ReadPresent(s, f, buf, next, size, arena)
    else ReadPresent(s, f, buf, off, size, arena)
  }

  /** Reads a value known to be there, strings and enums through the arena. */
  function ReadPresent(s: Schema, f: Field, buf: Bytes, off: nat, size: nat, arena: Bytes): (r: Parsed<(Value, Bytes)>)
    requires off <= |buf|
    ensures r.Got? ==> off < r.next <= |buf|
    decreases |buf| - off, 1
  {
    match f.kind
    case ScalarKind(sc) =>
      (match ReadScalar(sc, buf, off)
       case Bad => Bad
       case Got(x, next) => Got((x, if x.StringValue? then CopyToArena(arena, size, x.s) else arena), next))
    case RelationKind(t) =>
      if t !in s then Bad
      else match ReadRecord(s, s[t], buf, off)
        case Bad => Bad
        case Got(d, next) => Got((d.value, arena), next)
  }

  function ReadRows(s: Schema, d: Decl, buf: Bytes, off: nat, n: nat): (r: Parsed<seq<Value>>)
    requires off <= |buf|
    ensures r.Got? ==> off <= r.next <= |buf|
    decreases |buf| - off, 1
  {
    if n == 0 then Got([], off)
    else match ReadRecord(s, d, buf, off)
      case Bad => Bad
      case Got(x, next) =>
        match ReadRows(s, d, buf, next, n - 1)
        case Bad => Bad
        case Got(xs, end) => Got([x.value] + xs, end)
  }
}
