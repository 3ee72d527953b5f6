/**
 The selection mask a request carries: a bitmap of field IDs followed by length-delimited child
 masks of the selected relations, in increasing field ID order. An empty mask selects everything.
 */
module SelectionMask {
  import opened Wire
  import opened Wrappers

  // ---------------------------------------------------------------- bitmaps

  /** Whether bit `k` of `b` is one. */
  predicate Bit(b: nat, k: nat) {
    if k == 0 then b % 2 == 1 else Bit(b / 2, k - 1)
  }

  /** `b` with bit `k` set. */
  function SetBit(b: nat, k: nat): nat {
    if k == 0 then b / 2 * 2 + 1 else 2 * SetBit(b / 2, k - 1) + b % 2
  }

  lemma {:induction false} SetBitExact(b: nat, k: nat, other: nat)
    ensures Bit(SetBit(b, k), other) <==> other == k || Bit(b, other)
  {
    if k > 0 && other > 0 {
      SetBitExact(b / 2, k - 1, other - 1);
    }
  }

  lemma {:induction false} SetBitBound(b: nat, k: nat, width: nat)
    requires k < width && b < Pow2(width)
    ensures SetBit(b, k) < Pow2(width)
  {
    if k > 0 {
      SetBitBound(b / 2, k - 1, width - 1);
    }
  }

  function Pow2(k: nat): nat {
    if k == 0 then 1 else 2 * Pow2(k - 1)
  }

  /** Bit `k` of a byte, set. */
  function SetByteBit(b: byte, k: nat): (r: byte)
    requires k < 8
  {
    assert Pow2(8) == 2 * (2 * (2 * (2 * (2 * (2 * (2 * 2))))));
    SetBitBound(b, k, 8);
    SetBit(b, k)
  }

  /** An empty bitmap has every field; bit N of the bitmap stands for field ID N+1. */
  predicate FieldMaskHas(mask: Bytes, id: int) {
    if |mask| == 0 then true
    else if id <= 0 then false
    else (id - 1) / 8 < |mask| && Bit(mask[(id - 1) / 8], (id - 1) % 8)
  }

  function Grow(mask: Bytes, size: nat): (r: Bytes)
    ensures |r| == if |mask| < size then size else |mask|
    ensures mask <= r
    ensures forall i :: |mask| <= i < |r| ==> r[i] == 0
  {
    if |mask| >= size then mask else mask + seq(size - |mask|, _ => 0)
  }

  /** Grows the bitmap as needed and sets the bit of `id`. */
  function FieldMaskSet(mask: Bytes, id: int): Bytes {
    if id <= 0 then mask
    else
      var grown := Grow(mask, (id - 1) / 8 + 1);
      grown[(id - 1) / 8 := SetByteBit(grown[(id - 1) / 8], (id - 1) % 8)]
  }

  lemma {:induction false} ZeroBits(k: nat)
    ensures !Bit(0, k)
  {
    if k > 0 {
      ZeroBits(k - 1);
    }
  }

  /** The IDs an explicit bitmap selects: none when it is empty, unlike FieldMaskHas. */
  predicate Explicit(mask: Bytes, id: int) { |mask| > 0 && FieldMaskHas(mask, id) }

  /** Setting an ID adds it to the selected IDs and touches no other. */
  lemma FieldMaskSetExact(mask: Bytes, id: int, other: int)
    requires id > 0
    ensures Explicit(FieldMaskSet(mask, id), other) <==> other == id || Explicit(mask, other)
  {
    var grown := Grow(mask, (id - 1) / 8 + 1);
    var i := (id - 1) / 8;
    if other > 0 {
      var j := (other - 1) / 8;
      if j == i {
        SetBitExact(grown[i], (id - 1) % 8, (other - 1) % 8);
      }
      assert other == id <==> j == i && (other - 1) % 8 == (id - 1) % 8;
      assert j < |grown| ==> (Bit(grown[j], (other - 1) % 8) <==> Explicit(mask, other)) by {
        ZeroBits((other - 1) % 8);
      }
    }
  }

  // ---------------------------------------------------------------- nodes

  /** The node's bitmap and its encoded children; None for a malformed node. */
  function SplitSelectionMask(mask: Bytes): (r: Option<(Bytes, Bytes)>)
    decreases |mask|, 0
  {
    if |mask| == 0 then Some(([], []))
    else
      var (fieldLen, n) := ReadVarint(mask, 0);
      if n <= 0 || fieldLen == 0 || fieldLen > |mask| - n then None
      else
        var fields, children := mask[n..n + fieldLen], mask[n + fieldLen..];
        if fields[|fields| - 1] == 0 || !ValidChildren(children, 0, 0) then None
        else Some((fields, children))
  }

  predicate ValidChildren(children: Bytes, off: nat, previousId: nat)
    requires off <= |children|
    decreases |children|, |children| - off
  {
    if off == |children| then true
    else
      var (fieldId, n) := ReadVarint(children, off);
      if n <= 0 || fieldId == 0 || fieldId <= previousId then false
      else
        var (length, m) := ReadVarint(children, off + n);
        if m <= 0 || length == 0 || length > |children| - (off + n) - m then false
        else
          var start := off + n + m;
          && SplitSelectionMask(children[start..start + length]).Some?
          && ValidChildren(children, start + length, fieldId)
  }

  /** The node's bitmap; empty, that is everything, for an empty or malformed mask. */
  function SelectionMaskFields(mask: Bytes): Bytes {
    match SplitSelectionMask(mask)
    case None => []
    case Some((fields, _)) => fields
  }

  /** The lookup loop. Its first test never succeeds on validated children. */
  function FindChild(children: Bytes, off: nat, target: int): (r: Option<Bytes>)
    requires off <= |children|
    decreases |children| - off
  {
    if off == |children| then None
    else
      var (fieldId, n) := ReadVarint(children, off);
      if n <= 0 then None
      else
        var (length, m) := ReadVarint(children, off + n);
        if m <= 0 || off + n + m + length > |children| then None
        else
          var start := off + n + m;
          if ToInt(fieldId) == target then Some(children[start..start + length])
          else if ToInt(fieldId) > target then None
          else FindChild(children, start + length, target)
  }

  /** The child mask of a relation field; None when the relation carries no child node. */
  function SelectionMaskNested(mask: Bytes, target: int): Option<Bytes> {
    match SplitSelectionMask(mask)
    case None => None
    case Some((_, children)) => if target <= 0 then None else FindChild(children, 0, target)
  }

  // ---------------------------------------------------------------- writing a node

  datatype Child = Child(id: nat, mask: Bytes)

  /** One child node as written; children without an ID or without a mask are dropped. */
  function ChildBytes(c: Child): Bytes {
    if c.id == 0 || |c.mask| == 0 then [] else Varint(c.id) + (Varint(|c.mask|) + c.mask)
  }

  function ChildrenBytes(children: seq<Child>): Bytes {
    if children == [] then [] else ChildBytes(children[0]) + ChildrenBytes(children[1..])
  }

  /** The node built from a bitmap and children already sorted by field ID. */
  function SelectionNode(fields: Bytes, children: seq<Child>): Bytes {
    Varint(|fields|) + (fields + ChildrenBytes(children))
  }

  /** Children in strictly increasing ID order, each a well-formed non-empty node. */
  ghost predicate Canonical(children: seq<Child>, previousId: nat) {
    && (forall i :: 0 <= i < |children| ==>
      && previousId < children[i].id < TWO63 && 0 < |children[i].mask| < TWO63
      && SplitSelectionMask(children[i].mask).Some?)
    && (forall i, j :: 0 <= i < j < |children| ==> children[i].id < children[j].id)
  }

  ghost function Lookup(children: seq<Child>, target: int): Option<Bytes> {
    if children == [] then None
    else if children[0].id == target then Some(children[0].mask)
    else Lookup(children[1..], target)
  }

  lemma {:induction false} ChildReads(buf: Bytes, off: nat, c: Child, rest: Bytes)
    requires 0 < c.id < TWO63 && 0 < |c.mask| < TWO63
    requires At(buf, off, ChildBytes(c) + rest)
    ensures ReadVarint(buf, off) == (c.id, |Varint(c.id)|)
    ensures ReadVarint(buf, off + |Varint(c.id)|) == (|c.mask|, |Varint(|c.mask|)|)
    ensures At(buf, off + |Varint(c.id)| + |Varint(|c.mask|)|, c.mask)
    ensures At(buf, off + |ChildBytes(c)|, rest)
  {
    AtConcat(buf, off, ChildBytes(c), rest);
    AtConcat(buf, off, Varint(c.id), Varint(|c.mask|) + c.mask);
    AtConcat(buf, off + |Varint(c.id)|, Varint(|c.mask|), c.mask);
    VarintRoundTrip(buf, off, c.id);
    VarintRoundTrip(buf, off + |Varint(c.id)|, |c.mask|);
  }

  /** One step of the validity check and of the lookup, over a child whose two prefixes are known. */
  lemma {:induction false} ChildStep(buf: Bytes, off: nat, previousId: nat, target: int, id: nat, n: nat, length: nat, m: nat)
    requires off < off + n < off + n + m < off + n + m + length <= |buf|
    requires ReadVarint(buf, off) == (id, n) && ReadVarint(buf, off + n) == (length, m)
    requires previousId < id && SplitSelectionMask(buf[off + n + m..off + n + m + length]).Some?
    ensures var next := off + n + m + length;
      && ValidChildren(buf, off, previousId) == ValidChildren(buf, next, id)
      && FindChild(buf, off, target) == (
           if ToInt(id) == target then Some(buf[off + n + m..next])
           else if ToInt(id) > target then None
           else FindChild(buf, next, target))
  {
  }

  /** ChildStep, on a child that was written at `off`. */
  lemma {:induction false} WrittenChildStep(buf: Bytes, off: nat, c: Child, rest: Bytes, previousId: nat, target: int)
    requires previousId < c.id < TWO63 && 0 < |c.mask| < TWO63 && SplitSelectionMask(c.mask).Some?
    requires At(buf, off, ChildBytes(c) + rest)
    ensures var next := off + |ChildBytes(c)|;
      && off < next <= |buf| && At(buf, next, rest)
      && ValidChildren(buf, off, previousId) == ValidChildren(buf, next, c.id)
      && FindChild(buf, off, target) == (
           if c.id == target then Some(c.mask)
           else if c.id > target then None
           else FindChild(buf, next, target))
  {
    hide SplitSelectionMask, ValidChildren, FindChild, ReadVarint, Varint;
    ChildReads(buf, off, c, rest);
    ChildStep(buf, off, previousId, target, c.id, |Varint(c.id)|, |c.mask|, |Varint(|c.mask|)|);
  }

  lemma {:induction false} CanonicalSplit(children: seq<Child>, previousId: nat)
    requires children != [] && Canonical(children, previousId)
    ensures previousId < children[0].id < TWO63 && 0 < |children[0].mask| < TWO63
    ensures SplitSelectionMask(children[0].mask).Some? && Canonical(children[1..], children[0].id)
  {
    hide SplitSelectionMask;
  }

  lemma {:induction false} LookupAbove(children: seq<Child>, previousId: nat, target: int)
    requires Canonical(children, previousId) && target <= previousId
    ensures Lookup(children, target).None?
    decreases |children|
  {
    hide SplitSelectionMask;
    if children != [] {
      LookupAbove(children[1..], previousId, target);
    }
  }

  lemma {:induction false} NoChildren(buf: Bytes, previousId: nat, target: int)
    ensures ValidChildren(buf, |buf|, previousId) && FindChild(buf, |buf|, target).None?
  {
  }

  lemma {:induction false} ChildrenRoundTrip(buf: Bytes, off: nat, children: seq<Child>, previousId: nat, target: int)
    requires Canonical(children, previousId)
    requires At(buf, off, ChildrenBytes(children)) && off + |ChildrenBytes(children)| == |buf|
    ensures ValidChildren(buf, off, previousId)
    ensures FindChild(buf, off, target) == Lookup(children, target)
    decreases |children|
  {
    hide ReadVarint, SplitSelectionMask, ValidChildren, FindChild, Canonical, ChildBytes;
    if children == [] {
      NoChildren(buf, previousId, target);
    } else {
      var c, rest := children[0], ChildrenBytes(children[1..]);
      CanonicalSplit(children, previousId);
      WrittenChildStep(buf, off, c, rest, previousId, target);
      ChildrenRoundTrip(buf, off + |ChildBytes(c)|, children[1..], c.id, target);
      if c.id >= target {
        LookupAbove(children[1..], c.id, target);
      }
    }
  }

  lemma {:induction false} NodeSplits(fields: Bytes, tail: Bytes)
    requires 0 < |fields| < TWO63 && fields[|fields| - 1] != 0 && ValidChildren(tail, 0, 0)
    ensures SplitSelectionMask(Varint(|fields|) + (fields + tail)) == Some((fields, tail))
  {
    hide ValidChildren, ReadVarint;
    var mask := Varint(|fields|) + (fields + tail);
    AtConcat(mask, 0, Varint(|fields|), fields + tail);
    VarintRoundTrip(mask, 0, |fields|);
    var n := |Varint(|fields|)|;
    assert mask[n..n + |fields|] == fields;
    assert mask[n + |fields|..] == tail;
  }

  /** A canonical node is accepted, yields its own bitmap, and every relation finds exactly its child mask. */
  lemma {:induction false} SelectionNodeRoundTrip(fields: Bytes, children: seq<Child>, target: int)
    requires 0 < |fields| < TWO63 && fields[|fields| - 1] != 0
    requires Canonical(children, 0)
    ensures var mask := SelectionNode(fields, children);
      && SelectionMaskFields(mask) == fields
      && SelectionMaskNested(mask, target) == if target <= 0 then None else Lookup(children, target)
  {
    hide SplitSelectionMask, ValidChildren, FindChild;
    var tail := ChildrenBytes(children);
    ChildrenRoundTrip(tail, 0, children, 0, target);
    NodeSplits(fields, tail);
  }
}
