/**
 From a request to the answer: a request names fields by ID and, for relations, what is asked of the
 related record. The mask built from it makes the reader return exactly the fields asked for.
 */
module RequestedFields {
  import opened Wire
  import opened SelectionMask
  import opened Wrappers
  import opened RecordCodec
  import opened RecordRoundTrip

  /** The fields asked for; none named means the fields a record has by default. */
  datatype Request = Request(picks: seq<Pick>)

  /** A field by its ID; `of` is what is asked of the related record. */
  datatype Pick = Pick(id: nat, of: Request)

  const EVERYTHING := Request([])

  // ---------------------------------------------------------------- what a request means

  /** IDs are positive, fit an int, and none is named twice, at any depth. */
  ghost predicate Proper(r: Request)
    decreases r, 1
  {
    ProperPicks(r.picks)
  }

  ghost predicate ProperPicks(picks: seq<Pick>)
    decreases picks, 0
  {
    && (forall k :: 0 <= k < |picks| ==> ProperPick(picks[k]))
    && (forall j, k :: 0 <= j < k < |picks| ==> picks[j].id != picks[k].id)
  }

  ghost predicate ProperPick(p: Pick)
    decreases p, 1
  {
    0 < p.id < TWO63 && Proper(p.of)
  }

  predicate Named(picks: seq<Pick>, id: nat) { exists k :: 0 <= k < |picks| && picks[k].id == id }

  /** What is asked of the record behind the field with this ID. */
  ghost function Of(picks: seq<Pick>, id: nat): Request {
    if k :| 0 <= k < |picks| && picks[k].id == id then picks[k].of else EVERYTHING
  }

  /** The field is part of the answer: it is named, or none is and the field is one of the default ones;
      the relations of a model are not. */
  predicate Asked(d: Decl, f: Field, r: Request) {
    f.exposed && f.id != 0 && if r.picks == [] then f.kind.ScalarKind? || d.isType else Named(r.picks, f.id)
  }

  /** The Go zero value of a field's type. */
  predicate IsZero(f: Field, x: Value) {
    if f.isList then x == List([])
    else if f.nullable || f.kind.RelationKind? then x == Nil
    else match f.kind.scalar
      case IntScalar => x == IntValue(0)
      case FloatScalar => x == FloatValue(0)
      case BooleanScalar => x == BooleanValue(false)
      case UuidScalar => x.UuidValue? && |x.u| == 16 && forall k :: 0 <= k < 16 ==> x.u[k] == 0
      case _ => x == StringValue([])
  }

  /** `y` answers the request on `v`: the fields asked for, relations as asked of them, and zero values. */
  ghost predicate Answers(s: Schema, d: Decl, r: Request, v: Value, y: Value)
    requires Conforms(s, d, v)
    decreases v, 1
  {
    && y.Record? && |y.row| == |v.row|
    && forall i :: 0 <= i < |v.row| ==>
      var f := d.fields[i];
      if Asked(d, f, r) then FieldAnswers(s, f, Of(r.picks, f.id), v.row[i], y.row[i]) else IsZero(f, y.row[i])
  }

  ghost predicate FieldAnswers(s: Schema, f: Field, of: Request, x: Value, y: Value)
    requires FieldConforms(s, f, x)
    decreases x, 2
  {
    match f.kind
    case ScalarKind(_) => y == x
    case RelationKind(t) =>
      if f.isList then
        y.List? && RowsAnswer(s, s[t], of, x.items, y.items)
      else if x.Nil? then y.Nil?
      else Answers(s, s[t], of, x, y)
  }

  ghost predicate RowsAnswer(s: Schema, d: Decl, r: Request, items: seq<Value>, answers: seq<Value>)
    requires RowsConform(s, d, items)
    decreases items, 0
  {
    |answers| == |items| && forall k :: 0 <= k < |items| ==> Answers(s, d, r, items[k], answers[k])
  }

  /** A required relation that is asked for is loaded, at every depth. */
  ghost predicate LoadedFor(s: Schema, d: Decl, r: Request, v: Value)
    requires Conforms(s, d, v)
    decreases v, 1
  {
    forall i :: 0 <= i < |v.row| && Asked(d, d.fields[i], r) ==> FieldLoadedFor(s, d.fields[i], Of(r.picks, d.fields[i].id), v.row[i])
  }

  ghost predicate FieldLoadedFor(s: Schema, f: Field, of: Request, x: Value)
    requires FieldConforms(s, f, x)
    decreases x, 2
  {
    match f.kind
    case ScalarKind(_) => true
    case RelationKind(t) =>
      if f.isList then RowsLoadedFor(s, s[t], of, x.items)
      else if x.Nil? then f.nullable
      else LoadedFor(s, s[t], of, x)
  }

  ghost predicate RowsLoadedFor(s: Schema, d: Decl, r: Request, items: seq<Value>)
    requires RowsConform(s, d, items)
    decreases items, 0
  {
    forall k :: 0 <= k < |items| ==> LoadedFor(s, d, r, items[k])
  }

  /** The length of the strings asked for, among the first `i` fields; lists of strings do not count. */
  function StringBytes(d: Decl, r: Request, row: seq<Value>, i: nat): nat
    requires i <= |row| == |d.fields|
  {
    if i == 0 then 0
    else
      StringBytes(d, r, row, i - 1) +
      if Asked(d, d.fields[i - 1], r) && !d.fields[i - 1].isList && row[i - 1].StringValue? then |row[i - 1].s| else 0
  }

  /** The answer is within the reader's limits: lists of a million elements, strings of 64 MiB a record. */
  ghost predicate WithinLimits(s: Schema, d: Decl, r: Request, v: Value)
    requires Conforms(s, d, v)
    decreases v, 1
  {
    && StringBytes(d, r, v.row, |v.row|) <= 67_108_864
    && forall i :: 0 <= i < |v.row| && Asked(d, d.fields[i], r) ==> FieldWithinLimits(s, d.fields[i], Of(r.picks, d.fields[i].id), v.row[i])
  }

  ghost predicate FieldWithinLimits(s: Schema, f: Field, of: Request, x: Value)
    requires FieldConforms(s, f, x)
    decreases x, 2
  {
    && (f.isList ==> |x.items| <= 1_000_000)
    && match f.kind
       case ScalarKind(_) => true
       case RelationKind(t) =>
         if f.isList then RowsWithinLimits(s, s[t], of, x.items)
         else x.Nil? || WithinLimits(s, s[t], of, x)
  }

  ghost predicate RowsWithinLimits(s: Schema, d: Decl, r: Request, items: seq<Value>)
    requires RowsConform(s, d, items)
    decreases items, 0
  {
    forall k :: 0 <= k < |items| ==> WithinLimits(s, d, r, items[k])
  }

  /** There is only one answer. */
  lemma {:induction false} OneAnswer(s: Schema, d: Decl, r: Request, v: Value, y: Value, z: Value)
    requires Conforms(s, d, v) && Answers(s, d, r, v, y) && Answers(s, d, r, v, z)
    ensures y == z
    decreases v, 1
  {
    forall i | 0 <= i < |v.row| ensures y.row[i] == z.row[i] {
      var f := d.fields[i];
      if Asked(d, f, r) {
        OneFieldAnswer(s, f, Of(r.picks, f.id), v.row[i], y.row[i], z.row[i]);
      } else {
        OneZero(f, y.row[i], z.row[i]);
      }
    }
    assert y.row == z.row;
  }

  lemma {:induction false} OneZero(f: Field, y: Value, z: Value)
    requires IsZero(f, y) && IsZero(f, z)
    ensures y == z
  {
    if y.UuidValue? {
      assert y.u == z.u;
    }
  }

  lemma {:induction false} OneFieldAnswer(s: Schema, f: Field, of: Request, x: Value, y: Value, z: Value)
    requires FieldConforms(s, f, x) && FieldAnswers(s, f, of, x, y) && FieldAnswers(s, f, of, x, z)
    ensures y == z
    decreases x, 2
  {
    match f.kind
    case ScalarKind(_) =>
    case RelationKind(t) =>
      if f.isList {
        forall k | 0 <= k < |x.items| ensures y.items[k] == z.items[k] {
          OneAnswer(s, s[t], of, x.items[k], y.items[k], z.items[k]);
        }
        assert y.items == z.items;
      } else if !x.Nil? {
        OneAnswer(s, s[t], of, x, y, z);
      }
  }

  // ---------------------------------------------------------------- the mask of a request

  function Bitmap(picks: seq<Pick>): Bytes {
    if picks == [] then [] else FieldMaskSet(Bitmap(picks[..|picks| - 1]), picks[|picks| - 1].id)
  }

  /** The child masks, in the order of the request; a relation of which nothing is asked has none. */
  function ChildrenOf(picks: seq<Pick>): seq<Child>
    decreases picks, 0
  {
    if picks == [] then []
    else
      var last := picks[|picks| - 1];
      ChildrenOf(picks[..|picks| - 1]) + if last.of.picks == [] then [] else [ChildOf(last)]
  }

  function ChildOf(p: Pick): Child
    decreases p, 1
  {
    Child(p.id, MaskOf(p.of))
  }

  function MaskOf(r: Request): Bytes
    decreases r, 1
  {
    if r.picks == [] then [] else SelectionNode(Bitmap(r.picks), SortedById(ChildrenOf(r.picks)))
  }

  function InsertById(sorted: seq<Child>, c: Child): seq<Child> {
    if sorted == [] then [c]
    else if c.id < sorted[0].id then [c] + sorted
    else [sorted[0]] + InsertById(sorted[1..], c)
  }

  function SortedById(children: seq<Child>): seq<Child> {
    if children == [] then [] else InsertById(SortedById(children[..|children| - 1]), children[|children| - 1])
  }

  /** The conversion of a selection whose field names have been resolved to IDs. */
  method SelectToFieldMask(r: Request) returns (mask: Bytes)
    ensures mask == MaskOf(r)
    decreases r
  {
    if r.picks == [] {
      return [];
    }
    var fields: Bytes, children: seq<Child> := [], [];
    for k := 0 to |r.picks|
      invariant fields == Bitmap(r.picks[..k]) && children == ChildrenOf(r.picks[..k])
    {
      assert r.picks[..k + 1][..k] == r.picks[..k];
      fields := FieldMaskSet(fields, r.picks[k].id);
      var childMask := SelectToFieldMask(r.picks[k].of);
      if |childMask| > 0 {
        children := children + [Child(r.picks[k].id, childMask)];
      }
    }
    assert r.picks[..|r.picks|] == r.picks;
    mask := SelectionNode(fields, SortedById(children));
  }

  // ---------------------------------------------------------------- the mask says what is asked for

  lemma {:induction false} SetBitPositive(b: nat, k: nat)
    ensures SetBit(b, k) > 0
  {
    if k > 0 {
      SetBitPositive(b / 2, k - 1);
    }
  }

  lemma {:induction false} NamedStep(picks: seq<Pick>, id: nat)
    requires picks != []
    ensures var front, last := picks[..|picks| - 1], picks[|picks| - 1];
      Named(picks, id) <==> Named(front, id) || last.id == id
  {
    var front, last := picks[..|picks| - 1], picks[|picks| - 1];
    if k :| 0 <= k < |picks| && picks[k].id == id {
      assert k < |front| ==> front[k].id == id;
    }
    if k :| 0 <= k < |front| && front[k].id == id {
      assert picks[k].id == id;
    }
  }

  lemma {:induction false} EmptyBitmap(id: nat)
    ensures Bitmap([]) == [] && !Explicit([], id) && !Named([], id)
  {
  }

  /** The bitmap has exactly the IDs named, ends in a byte that is not zero and is as long as its largest ID needs. */
  lemma {:induction false} BitmapExact(picks: seq<Pick>, id: nat)
    requires forall k :: 0 <= k < |picks| ==> 0 < picks[k].id < TWO63
    ensures Explicit(Bitmap(picks), id) <==> Named(picks, id)
    ensures picks != [] ==> 0 < |Bitmap(picks)| < TWO63 && Bitmap(picks)[|Bitmap(picks)| - 1] != 0
    ensures |Bitmap(picks)| < TWO63
    decreases |picks|
  {
    EmptyBitmap(id);
    if picks != [] {
      var front, last := picks[..|picks| - 1], picks[|picks| - 1];
      BitmapExact(front, id);
      assert Bitmap(picks) == FieldMaskSet(Bitmap(front), last.id);
      hide Bitmap, Explicit, Named, FieldMaskSet;
      FieldMaskSetExact(Bitmap(front), last.id, id);
      LastByte(Bitmap(front), last.id) by { EmptyBitmap(id); }
      NamedStep(picks, id);
    }
  }

  lemma {:induction false} LastByte(mask: Bytes, id: nat)
    requires 0 < id < TWO63 && |mask| < TWO63 && (mask == [] || mask[|mask| - 1] != 0)
    ensures var m := FieldMaskSet(mask, id); 0 < |m| < TWO63 && m[|m| - 1] != 0
  {
    var grown := Grow(mask, (id - 1) / 8 + 1);
    SetBitPositive(grown[(id - 1) / 8], (id - 1) % 8);
  }

  /** The children stay canonical when one is put in its place, and only its ID finds something new. */
  lemma {:induction false} InsertKeeps(sorted: seq<Child>, c: Child, low: nat, t: int)
    requires Canonical(sorted, low) && Canonical([c], low)
    requires forall i :: 0 <= i < |sorted| ==> sorted[i].id != c.id
    ensures Canonical(InsertById(sorted, c), low)
    ensures Lookup(InsertById(sorted, c), t) == if t == c.id then Some(c.mask) else Lookup(sorted, t)
    ensures forall x :: x in InsertById(sorted, c) ==> x == c || x in sorted
    decreases |sorted|
  {
    hide SplitSelectionMask;
    assert [c][0] == c;
    if sorted != [] {
      if c.id < sorted[0].id {
        if t == c.id {
          LookupAbove(sorted, c.id, t) by { assert Canonical(sorted, c.id); }
        }
      } else {
        CanonicalSplit(sorted, low);
        InsertKeeps(sorted[1..], c, sorted[0].id, t) by { assert [c][0] == c; }
      }
    }
  }

  lemma {:induction false} InsertSize(sorted: seq<Child>, c: Child)
    ensures |ChildrenBytes(InsertById(sorted, c))| == |ChildrenBytes(sorted)| + |ChildBytes(c)|
    decreases |sorted|
  {
    hide ChildBytes;
    if sorted != [] && c.id >= sorted[0].id {
      InsertSize(sorted[1..], c);
      assert ([sorted[0]] + InsertById(sorted[1..], c))[1..] == InsertById(sorted[1..], c);
    } else {
      assert ([c] + sorted)[1..] == sorted;
    }
  }

  lemma {:induction false} SortedStep(children: seq<Child>, c: Child)
    ensures SortedById(children + [c]) == InsertById(SortedById(children), c)
  {
    assert (children + [c])[..|children|] == children;
  }

  lemma {:induction false} ChildWithin(picks: seq<Pick>, k: nat)
    requires ProperPicks(picks) && k < |picks|
    ensures |MaskOf(picks[k].of)| <= |ChildrenBytes(SortedById(ChildrenOf(picks)))|
    decreases |picks|
  {
    hide MaskOf, Proper;
    var front, last := picks[..|picks| - 1], picks[|picks| - 1];
    assert ProperPick(last);
    if k < |front| {
      assert ProperPicks(front);
      ChildWithin(front, k);
    }
    if last.of.picks != [] {
      SortedStep(ChildrenOf(front), ChildOf(last));
      InsertSize(SortedById(ChildrenOf(front)), ChildOf(last));
    } else {
      assert ChildrenOf(picks) == ChildrenOf(front);
      assert MaskOf(last.of) == [] by { Nothing(last.of); }
    }
  }

  lemma {:induction false} Nothing(r: Request)
    ensures r.picks == [] ==> MaskOf(r) == []
    ensures r.picks != [] ==> |MaskOf(r)| > |ChildrenBytes(SortedById(ChildrenOf(r.picks)))|
  {
    hide SortedById, ChildrenOf, ChildrenBytes, Bitmap;
  }

  /** What the mask has for the relation with this ID. */
  ghost function ChildMaskOf(picks: seq<Pick>, t: int): Option<Bytes> {
    if t > 0 && Named(picks, t) && Of(picks, t).picks != [] then Some(MaskOf(Of(picks, t))) else None
  }

  lemma {:induction false} ChildMaskOfStep(picks: seq<Pick>, t: int)
    requires picks != [] && ProperPicks(picks)
    ensures var front, last := picks[..|picks| - 1], picks[|picks| - 1];
      && ProperPicks(front) && !Named(front, last.id)
      && (t == last.id ==> ChildMaskOf(picks, t) == if last.of.picks == [] then None else Some(MaskOf(last.of)))
      && (t != last.id ==> ChildMaskOf(picks, t) == ChildMaskOf(front, t))
      && forall id :: Named(picks, id) <==> Named(front, id) || id == last.id
  {
    hide MaskOf, Proper;
    var front, last := picks[..|picks| - 1], picks[|picks| - 1];
    assert ProperPick(last);
    assert picks[|picks| - 1].id == last.id;
    forall id ensures Named(picks, id) <==> Named(front, id) || id == last.id {
      if k :| 0 <= k < |front| && front[k].id == id {
        assert picks[k].id == id;
      }
      if k :| 0 <= k < |picks| && picks[k].id == id {
        assert k < |front| ==> front[k].id == id;
      }
    }
    if t > 0 && t != last.id && Named(front, t) {
      var k :| 0 <= k < |front| && front[k].id == t;
      assert picks[k] == front[k];
    }
  }

  lemma {:induction false} PicksSorted(picks: seq<Pick>, t: int)
    requires ProperPicks(picks) && forall k :: 0 <= k < |picks| ==> |MaskOf(picks[k].of)| < TWO63
    ensures Canonical(SortedById(ChildrenOf(picks)), 0)
    ensures forall x :: x in SortedById(ChildrenOf(picks)) ==> Named(picks, x.id)
    ensures Lookup(SortedById(ChildrenOf(picks)), t) == ChildMaskOf(picks, t)
    decreases picks, 0
  {
    hide MaskOf, Proper, SplitSelectionMask, ChildMaskOf, Named, SortedById, InsertById, Canonical;
    if picks == [] {
      NoPicks(t);
    } else {
      var front, last := picks[..|picks| - 1], picks[|picks| - 1];
      ChildMaskOfStep(picks, t);
      PicksSorted(front, t);
      assert ProperPick(last);
      if last.of.picks != [] {
        ChildIsGood(last);
        SortedStep(ChildrenOf(front), ChildOf(last));
        InsertKeeps(SortedById(ChildrenOf(front)), ChildOf(last), 0, t);
      } else {
        assert ChildrenOf(picks) == ChildrenOf(front);
        NotNamed(front, last.id);
      }
    }
  }

  lemma {:induction false} NoPicks(t: int)
    ensures Canonical(SortedById([]), 0) && SortedById([]) == [] && Lookup([], t) == ChildMaskOf([], t) == None
  {
  }

  lemma {:induction false} NotNamed(picks: seq<Pick>, t: int)
    ensures t > 0 && !Named(picks, t) ==> ChildMaskOf(picks, t) == None
  {
  }

  lemma {:induction false} ChildIsGood(p: Pick)
    requires ProperPick(p) && p.of.picks != [] && |MaskOf(p.of)| < TWO63
    ensures Canonical([ChildOf(p)], 0)
    decreases p, 1
  {
    hide MaskOf, Proper, SplitSelectionMask;
    MaskRoundTrip(p.of, 1);
    Nothing(p.of);
  }

  /** The mask carries the request: its bitmap has the IDs named, and every relation finds the mask of what is asked of it. */
  lemma {:induction false} MaskRoundTrip(r: Request, t: int)
    requires Proper(r) && r.picks != [] && |MaskOf(r)| < TWO63
    ensures SplitSelectionMask(MaskOf(r)).Some?
    ensures SelectionMaskFields(MaskOf(r)) == Bitmap(r.picks)
    ensures SelectionMaskNested(MaskOf(r), t) == ChildMaskOf(r.picks, t)
    decreases r, 0
  {
    hide MaskOf, Proper, ProperPicks, ProperPick, SplitSelectionMask, Bitmap, SortedById, ChildrenOf, SelectionNode, ChildMaskOf,
         SelectionMaskFields, SelectionMaskNested, Explicit, Named, Canonical, Lookup;
    ProperHas(r);
    Nothing(r);
    BitmapExact(r.picks, 1);
    var children := SortedById(ChildrenOf(r.picks));
    assert MaskOf(r) == SelectionNode(Bitmap(r.picks), children) by { MaskIsNode(r); }
    forall k | 0 <= k < |r.picks| ensures |MaskOf(r.picks[k].of)| < TWO63 {
      ChildWithin(r.picks, k);
    }
    PicksSorted(r.picks, t);
    SelectionNodeRoundTrip(Bitmap(r.picks), children, t);
    FieldsOfAccepted(MaskOf(r));
    NoneBelowOne(r.picks, t);
  }

  lemma {:induction false} MaskIsNode(r: Request)
    requires r.picks != []
    ensures MaskOf(r) == SelectionNode(Bitmap(r.picks), SortedById(ChildrenOf(r.picks)))
  {
  }

  lemma {:induction false} FieldsOfAccepted(mask: Bytes)
    ensures SelectionMaskFields(mask) != [] ==> SplitSelectionMask(mask).Some?
  {
    hide SplitSelectionMask;
  }

  lemma {:induction false} NoneBelowOne(picks: seq<Pick>, t: int)
    ensures t <= 0 ==> ChildMaskOf(picks, t) == None
  {
  }

  // ---------------------------------------------------------------- the answer is what was asked for

  /** A request whose mask is a Go slice. */
  ghost predicate Sent(r: Request) { Proper(r) && |MaskOf(r)| < TWO63 }

  lemma {:induction false} NothingAsked()
    ensures Sent(EVERYTHING) && MaskOf(EVERYTHING) == [] && SelectionMaskFields([]) == []
    ensures forall t :: SelectionMaskNested([], t) == None
  {
  }

  lemma {:induction false} OfSent(r: Request, id: nat)
    requires Sent(r)
    ensures Sent(Of(r.picks, id))
  {
    hide MaskOf, Proper;
    NothingAsked();
    if exists k :: 0 <= k < |r.picks| && r.picks[k].id == id {
      var k :| 0 <= k < |r.picks| && r.picks[k].id == id && Of(r.picks, id) == r.picks[k].of;
      assert ProperPicks(r.picks) by { ProperHas(r); }
      assert ProperPick(r.picks[k]);
      ChildWithin(r.picks, k);
      Nothing(r);
    }
  }

  lemma {:induction false} ProperHas(r: Request)
    requires Proper(r)
    ensures ProperPicks(r.picks) && forall k :: 0 <= k < |r.picks| ==> 0 < r.picks[k].id < TWO63
  {
    assert ProperPicks(r.picks);
    hide Proper;
    forall k | 0 <= k < |r.picks| ensures 0 < r.picks[k].id < TWO63 {
      assert ProperPick(r.picks[k]);
    }
  }

  /** The writer finds in the mask exactly what the request says of a field. */
  lemma {:induction false} MaskSelects(d: Decl, f: Field, r: Request)
    requires Sent(r)
    ensures Selected(d, f, MaskOf(r)) <==> Asked(d, f, r)
    ensures f.id > 0 ==> ChildMask(MaskOf(r), f) == MaskOf(Of(r.picks, f.id))
  {
    hide MaskOf, Proper, SelectionMaskFields, SelectionMaskNested, Bitmap, FieldMaskHas;
    NothingAsked();
    if r.picks == [] {
      assert r == EVERYTHING;
      assert FieldMaskHas([], f.id) by { DefaultHas(f.id); }
      assert Of(r.picks, f.id) == EVERYTHING;
    } else {
      ProperHas(r);
      BitmapExact(r.picks, f.id);
      MaskRoundTrip(r, f.id);
      Nothing(r);
      assert Of(r.picks, f.id).picks == [] ==> Of(r.picks, f.id) == EVERYTHING;
      assert !Named(r.picks, f.id) ==> Of(r.picks, f.id) == EVERYTHING;
    }
  }

  lemma {:induction false} DefaultHas(id: int)
    ensures FieldMaskHas([], id)
  {
  }

  /** Loaded, within the limits and projected: the mask makes of these what the request says. */
  lemma {:induction false} MaskMeans(s: Schema, d: Decl, r: Request, v: Value)
    requires Sent(r) && Conforms(s, d, v)
    ensures Loaded(s, d, v, MaskOf(r)) <==> LoadedFor(s, d, r, v)
    ensures Fits(s, d, v, MaskOf(r)) <==> WithinLimits(s, d, r, v)
    ensures Answers(s, d, r, v, Project(s, d, v, MaskOf(r)))
    ensures StringBytes(d, r, v.row, |v.row|) == ArenaLen(d, v, MaskOf(r), |v.row|)
    decreases v, 1
  {
    hide MaskOf, Proper, Selected, ChildMask, Asked, Of, Sent, Zero, IsZero;
    Shape(s, d, v);
    StringsAreArena(s, d, r, v, |v.row|);
    forall i | 0 <= i < |v.row|
      ensures Selected(d, d.fields[i], MaskOf(r)) <==> Asked(d, d.fields[i], r)
      ensures Asked(d, d.fields[i], r) ==> FieldMeans(s, d.fields[i], r, v.row[i])
      ensures IsZero(d.fields[i], Zero(d.fields[i]))
    {
      MaskSelects(d, d.fields[i], r);
      if Asked(d, d.fields[i], r) {
        AskedHasId(d, d.fields[i], r);
        FieldMaskMeans(s, d.fields[i], r, v.row[i]);
      }
      ZeroIsZero(d.fields[i]);
    }
    NoArenaNoStrings(s, d, r, v, |v.row|);
    hide Conforms, FieldConforms, ProjectField, FieldAnswers, FieldLoaded, FieldLoadedFor, FieldFits, FieldWithinLimits, StringBytes, ArenaLen, HasArena;
  }

  lemma {:induction false} AskedHasId(d: Decl, f: Field, r: Request)
    requires Asked(d, f, r)
    ensures f.id > 0
  {
  }

  lemma {:induction false} ZeroIsZero(f: Field)
    ensures IsZero(f, Zero(f))
  {
  }

  ghost predicate FieldMeans(s: Schema, f: Field, r: Request, x: Value) {
    && FieldConforms(s, f, x)
    && (FieldLoaded(s, f, x, MaskOf(r)) <==> FieldLoadedFor(s, f, Of(r.picks, f.id), x))
    && (FieldFits(s, f, x, MaskOf(r)) <==> FieldWithinLimits(s, f, Of(r.picks, f.id), x))
    && FieldAnswers(s, f, Of(r.picks, f.id), x, ProjectField(s, f, x, MaskOf(r)))
  }

  lemma {:induction false} FieldMaskMeans(s: Schema, f: Field, r: Request, x: Value)
    requires Sent(r) && f.id > 0 && FieldConforms(s, f, x)
    ensures FieldMeans(s, f, r, x)
    decreases x, 2
  {
    hide MaskOf, Proper, Of, Sent, Loaded, LoadedFor, Fits, WithinLimits, Project, Answers, Conforms, RowsLoaded, RowsLoadedFor, RowsFit, RowsWithinLimits, RowsAnswer, ProjectRows;
    var of := Of(r.picks, f.id);
    OfSent(r, f.id);
    MaskSelects(Decl([f], true), f, r);
    match f.kind
    case ScalarKind(_) =>
    case RelationKind(t) =>
      if f.isList {
        RowsMaskMeans(s, s[t], of, x.items);
      } else if !x.Nil? {
        MaskMeans(s, s[t], of, x);
      }
  }

  lemma {:induction false} RowsMaskMeans(s: Schema, d: Decl, r: Request, items: seq<Value>)
    requires Sent(r) && RowsConform(s, d, items)
    ensures RowsLoaded(s, d, items, MaskOf(r)) <==> RowsLoadedFor(s, d, r, items)
    ensures RowsFit(s, d, items, MaskOf(r)) <==> RowsWithinLimits(s, d, r, items)
    ensures RowsAnswer(s, d, r, items, ProjectRows(s, d, items, MaskOf(r)))
    decreases items, 0
  {
    hide MaskOf, Sent, Loaded, LoadedFor, Fits, WithinLimits, Project, Answers, Conforms;
    forall k | 0 <= k < |items|
      ensures Loaded(s, d, items[k], MaskOf(r)) <==> LoadedFor(s, d, r, items[k])
      ensures Fits(s, d, items[k], MaskOf(r)) <==> WithinLimits(s, d, r, items[k])
      ensures Answers(s, d, r, items[k], Project(s, d, items[k], MaskOf(r)))
    {
      MaskMeans(s, d, r, items[k]);
    }
  }

  lemma {:induction false} StringsAreArena(s: Schema, d: Decl, r: Request, v: Value, i: nat)
    requires Sent(r) && Conforms(s, d, v) && i <= |v.row|
    ensures |v.row| == |d.fields| && StringBytes(d, r, v.row, i) == ArenaLen(d, v, MaskOf(r), i)
  {
    hide MaskOf, Proper, Selected, Asked, Sent;
    Shape(s, d, v);
    if i > 0 {
      StringsAreArena(s, d, r, v, i - 1);
      MaskSelects(d, d.fields[i - 1], r);
      ConformsAt(s, d, v, i - 1);
      if !d.fields[i - 1].isList && !v.row[i - 1].Nil? {
        OnlyStrings(s, d.fields[i - 1], v.row[i - 1]);
      }
      assert IsArenaField(d.fields[i - 1]) ==> !d.fields[i - 1].isList;
    }
  }

  lemma {:induction false} OnlyStrings(s: Schema, f: Field, x: Value)
    requires FieldConforms(s, f, x) && !f.isList && !x.Nil?
    ensures IsArenaField(f) <==> x.StringValue?
  {
  }

  lemma {:induction false} NoArenaNoStrings(s: Schema, d: Decl, r: Request, v: Value, i: nat)
    requires Conforms(s, d, v) && i <= |v.row|
    ensures |v.row| == |d.fields| && (!HasArena(d) ==> StringBytes(d, r, v.row, i) == 0)
  {
    Shape(s, d, v);
    if i > 0 {
      NoArenaNoStrings(s, d, r, v, i - 1);
      ConformsAt(s, d, v, i - 1);
      if !d.fields[i - 1].isList && !v.row[i - 1].Nil? {
        OnlyStrings(s, d.fields[i - 1], v.row[i - 1]);
      }
    }
  }

  /** Main result: the record written for a request, wherever it sits in a buffer, is read back as the
      answer to the request, to its last byte, if and only if the answer is within the reader's limits. */
  lemma {:induction false} RequestRoundTrip(s: Schema, d: Decl, r: Request, v: Value, buf: Bytes, off: nat)
    requires Sent(r) && WellFormed(s) && WellFormedDecl(s, d) && Conforms(s, d, v) && LoadedFor(s, d, r, v)
    ensures Loaded(s, d, v, MaskOf(r))
    ensures |buf| < TWO63 && At(buf, off, WriteRecord(s, d, v, MaskOf(r))) ==>
      var read := ReadRecord(s, d, buf, off);
      && (read.Got? <==> WithinLimits(s, d, r, v))
      && (read.Got? ==>
        && read.next == off + |WriteRecord(s, d, v, MaskOf(r))|
        && Answers(s, d, r, v, read.value.value)
        && |read.value.arena| == read.value.arenaSize == StringBytes(d, r, v.row, |v.row|))
  {
    hide MaskOf, Sent, Loaded, LoadedFor, Fits, WithinLimits, Project, Answers, Conforms, WellFormed, WellFormedDecl, ReadRecord, WriteRecord, ArenaLen, ArenaPrefix;
    MaskMeans(s, d, r, v);
    if |buf| < TWO63 && At(buf, off, WriteRecord(s, d, v, MaskOf(r))) {
      RoundTrip(s, d, v, MaskOf(r), buf, off);
    }
  }

  // ---------------------------------------------------------------- which values there are

  /** The Go values of a scalar type. */
  predicate GoValue(sc: Scalar, x: Value) {
    match x
    case IntValue(i) => sc.IntScalar? && -0x8000_0000_0000_0000 <= i < 0x8000_0000_0000_0000
    case FloatValue(bits) => sc.FloatScalar? && bits < 0x1_0000_0000_0000_0000
    case BooleanValue(_) => sc.BooleanScalar?
    case StringValue(text) => (sc.StringScalar? || sc.EnumScalar?) && |text| < 0x8000_0000_0000_0000
    case UuidValue(u) => sc.UuidScalar? && |u| == 16
    case _ => false
  }

  /** A field holds a value of its type; pointers may be nil, lists are slices of the type. */
  lemma {:induction false} ConformsIff(s: Schema, f: Field, x: Value)
    ensures FieldConforms(s, f, x) <==>
      match f.kind
      case ScalarKind(sc) =>
        if f.isList then x.List? && |x.items| < 0x8000_0000_0000_0000 && forall k :: 0 <= k < |x.items| ==> GoValue(sc, x.items[k])
        else (f.nullable && x == Nil) || GoValue(sc, x)
      case RelationKind(t) =>
        t in s && if f.isList then x.List? && |x.items| < 0x8000_0000_0000_0000 && forall k :: 0 <= k < |x.items| ==> Conforms(s, s[t], x.items[k])
        else x == Nil || Conforms(s, s[t], x)
  {
    hide Conforms;
    if f.kind.ScalarKind? {
      forall y ensures ScalarConforms(f.kind.scalar, y) <==> GoValue(f.kind.scalar, y) {
      }
    }
  }

  const POST := Decl([Field("id", 1, ScalarKind(IntScalar), false, false, true), Field("title", 2, ScalarKind(StringScalar), false, false, true)], false)

  const USER := Decl([Field("id", 1, ScalarKind(IntScalar), false, false, true), Field("name", 2, ScalarKind(StringScalar), true, false, true),
                      Field("posts", 3, RelationKind("Post"), false, true, true), Field("best", 4, RelationKind("Post"), true, false, true),
                      Field("password", 5, ScalarKind(StringScalar), false, false, true)], false)

  const BLOG: Schema := map["Post" := POST, "User" := USER]

  const TITLES := Request([Pick(2, EVERYTHING)])

  const NAME_AND_TITLES := Request([Pick(3, TITLES), Pick(2, EVERYTHING)])

  function PostOf(id: int, title: Bytes): Value { Record([IntValue(id), StringValue(title)]) }

  lemma {:induction false} BlogWellFormed()
    ensures WellFormed(BLOG) && Proper(NAME_AND_TITLES)
  {
    assert WellFormedDecl(BLOG, POST) && WellFormedDecl(BLOG, USER);
    assert ProperPicks([]) && Proper(EVERYTHING);
    assert ProperPick(TITLES.picks[0]) && ProperPicks(TITLES.picks) && Proper(TITLES);
    assert ProperPick(NAME_AND_TITLES.picks[0]) && ProperPick(NAME_AND_TITLES.picks[1]);
  }

  lemma {:induction false} TitleOf(id: int, title: Bytes)
    requires -1000 < id < 1000 && |title| < 1000
    ensures var p := PostOf(id, title);
      && Conforms(BLOG, POST, p) && LoadedFor(BLOG, POST, TITLES, p) && WithinLimits(BLOG, POST, TITLES, p)
      && Answers(BLOG, POST, TITLES, p, PostOf(0, title))
  {
    var p := PostOf(id, title);
    assert FieldConforms(BLOG, POST.fields[0], p.row[0]) && FieldConforms(BLOG, POST.fields[1], p.row[1]);
    assert TITLES.picks[0].id == 2;
    assert !Named(TITLES.picks, 1) && Named(TITLES.picks, 2);
    assert StringBytes(POST, TITLES, p.row, 1) == 0;
  }

  lemma {:induction false} AskedOfUser()
    ensures !Asked(USER, USER.fields[0], NAME_AND_TITLES) && Asked(USER, USER.fields[1], NAME_AND_TITLES)
    ensures Asked(USER, USER.fields[2], NAME_AND_TITLES) && Of(NAME_AND_TITLES.picks, 3) == TITLES
    ensures !Asked(USER, USER.fields[3], NAME_AND_TITLES) && !Asked(USER, USER.fields[4], NAME_AND_TITLES)
  {
    assert NAME_AND_TITLES.picks[0].id == 3 && NAME_AND_TITLES.picks[1].id == 2;
  }

  lemma {:induction false} UserConforms(id: int, name: Bytes, p: Value, password: Bytes)
    requires -1000 < id < 1000 && |name| < 1000 && |password| < 1000 && Conforms(BLOG, POST, p)
    ensures Conforms(BLOG, USER, Record([IntValue(id), StringValue(name), List([p, p]), p, StringValue(password)]))
  {
    var v := Record([IntValue(id), StringValue(name), List([p, p]), p, StringValue(password)]);
    assert FieldConforms(BLOG, USER.fields[0], v.row[0]) && FieldConforms(BLOG, USER.fields[1], v.row[1]) && FieldConforms(BLOG, USER.fields[4], v.row[4]);
    assert FieldConforms(BLOG, USER.fields[2], v.row[2]) && FieldConforms(BLOG, USER.fields[3], v.row[3]) by { PostsConform(p); }
    hide FieldConforms;
  }

  lemma {:induction false} PostsConform(p: Value)
    requires Conforms(BLOG, POST, p)
    ensures FieldConforms(BLOG, USER.fields[2], List([p, p])) && FieldConforms(BLOG, USER.fields[3], p)
  {
    hide Conforms;
  }

  /** An example: of a user with posts, a request for the name and the titles of the posts is met with these and nothing else. */
  lemma {:induction false} NameAndTitles(id: int, name: Bytes, title: Bytes, password: Bytes)
    requires -1000 < id < 1000 && |name| < 1000 && |title| < 1000 && |password| < 1000
    ensures var p, q := PostOf(id, title), PostOf(0, title);
      var v := Record([IntValue(id), StringValue(name), List([p, p]), p, StringValue(password)]);
      && WellFormed(BLOG) && Proper(NAME_AND_TITLES) && Conforms(BLOG, USER, v)
      && LoadedFor(BLOG, USER, NAME_AND_TITLES, v) && WithinLimits(BLOG, USER, NAME_AND_TITLES, v)
      && Answers(BLOG, USER, NAME_AND_TITLES, v, Record([IntValue(0), StringValue(name), List([q, q]), Nil, StringValue([])]))
  {
    var p, q := PostOf(id, title), PostOf(0, title);
    var v := Record([IntValue(id), StringValue(name), List([p, p]), p, StringValue(password)]);
    BlogWellFormed();
    TitleOf(id, title);
    hide Conforms, Answers, LoadedFor, WithinLimits, WellFormed, Proper, PostOf;
    UserConforms(id, name, p, password);
    UserAnswered(v, p, q);
  }

  lemma {:induction false} UserAnswered(v: Value, p: Value, q: Value)
    requires Conforms(BLOG, POST, p) && LoadedFor(BLOG, POST, TITLES, p) && WithinLimits(BLOG, POST, TITLES, p) && Answers(BLOG, POST, TITLES, p, q)
    requires Conforms(BLOG, USER, v) && v.row[1].StringValue? && |v.row[1].s| < 1000 && v.row[2] == List([p, p])
    ensures LoadedFor(BLOG, USER, NAME_AND_TITLES, v) && WithinLimits(BLOG, USER, NAME_AND_TITLES, v)
    ensures Answers(BLOG, USER, NAME_AND_TITLES, v, Record([IntValue(0), v.row[1], List([q, q]), Nil, StringValue([])]))
  {
    AskedOfUser();
    Shape(BLOG, USER, v);
    assert USER.fields[2].id == 3;
    hide Asked, Of, Conforms;
    assert RowsConform(BLOG, POST, [p, p]);
    PostsAnswered(p, q);
    var y := Record([IntValue(0), v.row[1], List([q, q]), Nil, StringValue([])]);
    assert FieldConforms(BLOG, USER.fields[1], v.row[1]) && FieldConforms(BLOG, USER.fields[2], v.row[2]) by { ConformsAt(BLOG, USER, v, 1); ConformsAt(BLOG, USER, v, 2); }
    hide LoadedFor, WithinLimits, Answers, RowsLoadedFor, RowsWithinLimits, RowsAnswer, RowsConform;
    assert FieldLoadedFor(BLOG, USER.fields[2], TITLES, v.row[2]) && FieldWithinLimits(BLOG, USER.fields[2], TITLES, v.row[2]);
    assert FieldAnswers(BLOG, USER.fields[2], TITLES, v.row[2], y.row[2]);
    UserMet(v, y);
  }

  lemma {:induction false} PostsAnswered(p: Value, q: Value)
    requires Conforms(BLOG, POST, p) && LoadedFor(BLOG, POST, TITLES, p) && WithinLimits(BLOG, POST, TITLES, p) && Answers(BLOG, POST, TITLES, p, q)
    ensures RowsConform(BLOG, POST, [p, p]) && RowsLoadedFor(BLOG, POST, TITLES, [p, p]) && RowsWithinLimits(BLOG, POST, TITLES, [p, p])
    ensures RowsAnswer(BLOG, POST, TITLES, [p, p], [q, q])
  {
    hide Conforms, LoadedFor, WithinLimits, Answers;
  }

  lemma {:induction false} UserMet(v: Value, y: Value)
    requires Conforms(BLOG, USER, v) && |v.row| == 5 && v.row[1].StringValue? && |v.row[1].s| < 1000
    requires FieldConforms(BLOG, USER.fields[2], v.row[2])
    requires FieldLoadedFor(BLOG, USER.fields[2], TITLES, v.row[2]) && FieldWithinLimits(BLOG, USER.fields[2], TITLES, v.row[2])
    requires y.Record? && |y.row| == 5 && FieldAnswers(BLOG, USER.fields[2], TITLES, v.row[2], y.row[2])
    requires y.row[0] == IntValue(0) && y.row[1] == v.row[1] && y.row[3] == Nil && y.row[4] == StringValue([])
    ensures LoadedFor(BLOG, USER, NAME_AND_TITLES, v) && WithinLimits(BLOG, USER, NAME_AND_TITLES, v) && Answers(BLOG, USER, NAME_AND_TITLES, v, y)
  {
    AskedOfUser();
    assert USER.fields[2].id == 3;
    ConformsAt(BLOG, USER, v, 1);
    var r := NAME_AND_TITLES;
    hide Asked, Conforms;
    assert USER.fields[1].kind == ScalarKind(StringScalar);
    assert FieldLoadedFor(BLOG, USER.fields[1], Of(r.picks, 2), v.row[1]) && FieldWithinLimits(BLOG, USER.fields[1], Of(r.picks, 2), v.row[1]);
    assert FieldAnswers(BLOG, USER.fields[1], Of(r.picks, 2), v.row[1], y.row[1]);
    assert USER.fields[1].id == 2;
    assert StringBytes(USER, r, v.row, 1) == 0;
    assert USER.fields[2].isList;
    assert StringBytes(USER, r, v.row, 2) == |v.row[1].s| == StringBytes(USER, r, v.row, 3) == StringBytes(USER, r, v.row, 4) == StringBytes(USER, r, v.row, 5);
    hide StringBytes, Of, FieldAnswers, FieldLoadedFor, FieldWithinLimits;
  }

  /** A mask that is no request, and not empty: the writer takes it for one that asks for everything, relations too. */
  lemma {:induction false} MalformedAsksForAll(d: Decl, f: Field, mask: Bytes)
    requires mask != [] && SplitSelectionMask(mask).None?
    ensures Selected(d, f, mask) <==> f.exposed && f.id != 0
    ensures ChildMask(mask, f) == []
  {
    hide SplitSelectionMask;
  }
}
