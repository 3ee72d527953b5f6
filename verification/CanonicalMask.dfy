/**
 Which masks are accepted: exactly the canonical ones, read as a bitmap and a list of children. In these the
 lookup finds exactly the children, and they are accepted themselves.
 */
module CanonicalMask {
  import opened Wire
  import opened SelectionMask
  import opened Wrappers

  /** The children that stand from an offset on; None if they do not end where the mask ends. */
  function Entries(children: Bytes, off: nat): Option<seq<Child>>
    requires off <= |children|
    decreases |children| - off
  {
    if off == |children| then Some([])
    else
      var (id, n) := ReadVarint(children, off);
      if n <= 0 then None
      else
        var (length, m) := ReadVarint(children, off + n);
        var start := off + n + m;
        if m <= 0 || start + length > |children| then None
        else
          match Entries(children, start + length)
          case None => None
          case Some(rest) => Some([Child(id, children[start..start + length])] + rest)
  }

  /** IDs that increase from `low` on, and masks that are accepted and not empty. */
  ghost predicate Ordered(entries: seq<Child>, low: nat) {
    && (forall i :: 0 <= i < |entries| ==> low < entries[i].id && entries[i].mask != [] && SplitSelectionMask(entries[i].mask).Some?)
    && (forall i, j :: 0 <= i < j < |entries| ==> entries[i].id < entries[j].id)
  }

  lemma {:induction false} OrderedSplit(entries: seq<Child>, low: nat)
    requires entries != []
    ensures Ordered(entries, low) <==>
      low < entries[0].id && entries[0].mask != [] && SplitSelectionMask(entries[0].mask).Some? && Ordered(entries[1..], entries[0].id)
  {
    hide SplitSelectionMask;
    var rest := entries[1..];
    assert forall i :: 0 <= i < |rest| ==> rest[i] == entries[i + 1];
    if low < entries[0].id && Ordered(rest, entries[0].id) {
      forall i, j | 0 <= i < j < |entries| ensures entries[i].id < entries[j].id {
        assert entries[j] == rest[j - 1];
        assert i > 0 ==> entries[i] == rest[i - 1];
      }
    }
  }

  /** Children are accepted exactly when they can be read to the end and are in order. */
  lemma {:induction false} ValidIff(children: Bytes, off: nat, low: nat)
    requires off <= |children|
    ensures ValidChildren(children, off, low) <==> Entries(children, off).Some? && Ordered(Entries(children, off).value, low)
    decreases |children| - off
  {
    hide SplitSelectionMask, ReadVarint, Ordered;
    if off == |children| {
      assert Ordered([], low) by { NoneOrdered(low); }
    } else {
      var (id, n) := ReadVarint(children, off);
      if n > 0 {
        var (length, m) := ReadVarint(children, off + n);
        var start := off + n + m;
        if m > 0 && start + length <= |children| {
          ValidIff(children, start + length, id);
          if Entries(children, off).Some? {
            OrderedSplit(Entries(children, off).value, low);
          }
        }
      }
    }
  }

  lemma {:induction false} NoneOrdered(low: nat)
    ensures Ordered([], low)
  {
  }

  /** A mask is accepted, and taken apart like this, exactly when it is a bitmap of the length in front, which
      does not end in a zero byte, and children in order. */
  lemma {:induction false} AcceptedIff(mask: Bytes, fields: Bytes, children: Bytes)
    requires mask != []
    ensures SplitSelectionMask(mask) == Some((fields, children)) <==>
      var (length, n) := ReadVarint(mask, 0);
      && n > 0 && 0 < length == |fields| && n <= |mask| && mask[n..] == fields + children && fields[length - 1] != 0
      && Entries(children, 0).Some? && Ordered(Entries(children, 0).value, 0)
  {
    hide ReadVarint, ValidChildren, Entries, Ordered;
    var (length, n) := ReadVarint(mask, 0);
    if n > 0 && n + length <= |mask| {
      ValidIff(mask[n + length..], 0, 0);
      assert mask[n..] == mask[n..n + length] + mask[n + length..];
    }
    if n > 0 && n <= |mask| && mask[n..] == fields + children && |fields| == length {
      assert fields == mask[n..][..length] == mask[n..n + length];
      assert children == mask[n..][length..] == mask[n + length..];
    }
  }

  lemma {:induction false} AboveAll(entries: seq<Child>, low: nat, t: int)
    requires Ordered(entries, low) && t <= low
    ensures Lookup(entries, t).None?
    decreases |entries|
  {
    hide SplitSelectionMask;
    if entries != [] {
      AboveAll(entries[1..], low, t);
    }
  }

  /** The lookup finds exactly the child with the ID, and never reads past the children. */
  lemma {:induction false} LookupFinds(children: Bytes, off: nat, low: nat, t: int)
    requires off <= |children| && ValidChildren(children, off, low) && 0 < t < TWO63
    ensures Entries(children, off).Some? && FindChild(children, off, t) == Lookup(Entries(children, off).value, t)
    decreases |children| - off
  {
    ValidIff(children, off, low);
    if off < |children| {
      var (id, n) := ReadVarint(children, off);
      var (length, m) := ReadVarint(children, off + n);
      var entries, rest := Entries(children, off).value, Entries(children, off + n + m + length).value;
      assert entries[0].id == id && entries[1..] == rest;
      ReadVarintBounded(children, off);
      LookupFinds(children, off + n + m + length, id, t);
      ValidIff(children, off + n + m + length, id);
      hide ReadVarint, SplitSelectionMask, ValidChildren;
      if t < id {
        AboveAll(rest, id, t);
      }
    }
  }

  /** What is asked of a relation in an accepted mask is an accepted mask. */
  lemma {:induction false} NestedAccepted(mask: Bytes, t: int)
    requires SplitSelectionMask(mask).Some? && 0 < t < TWO63 && SelectionMaskNested(mask, t).Some?
    ensures var child := SelectionMaskNested(mask, t).value; child != [] && SplitSelectionMask(child).Some?
  {
    var children := SplitSelectionMask(mask).value.1;
    if children != [] {
      LookupFinds(children, 0, 0, t);
      ValidIff(children, 0, 0);
      LookupAccepted(Entries(children, 0).value, 0, t);
    }
  }

  lemma {:induction false} LookupAccepted(entries: seq<Child>, low: nat, t: int)
    requires Ordered(entries, low) && Lookup(entries, t).Some?
    ensures var child := Lookup(entries, t).value; child != [] && SplitSelectionMask(child).Some?
    decreases |entries|
  {
    hide SplitSelectionMask;
    if entries[0].id != t {
      OrderedSplit(entries, low);
      LookupAccepted(entries[1..], entries[0].id, t);
    }
  }

  /** Children without an ID, or of which nothing is asked, leave no trace in the mask. */
  lemma {:induction false} EmptyChildDropped(fields: Bytes, a: seq<Child>, c: Child, b: seq<Child>)
    requires c.id == 0 || c.mask == []
    ensures SelectionNode(fields, a + [c] + b) == SelectionNode(fields, a + b)
  {
    hide ChildrenBytes;
    OneChild(c);
    ChildrenSplit(a + [c], b);
    ChildrenSplit(a, [c]);
    ChildrenSplit(a, b);
    assert ChildrenBytes(a) + [] == ChildrenBytes(a);
  }

  lemma {:induction false} ChildrenSplit(a: seq<Child>, b: seq<Child>)
    ensures ChildrenBytes(a + b) == ChildrenBytes(a) + ChildrenBytes(b)
    decreases |a|
  {
    hide ChildBytes;
    if a == [] {
      assert a + b == b;
    } else {
      ChildrenSplit(a[1..], b);
      assert (a + b)[1..] == a[1..] + b;
      assert ChildBytes(a[0]) + (ChildrenBytes(a[1..]) + ChildrenBytes(b)) == (ChildBytes(a[0]) + ChildrenBytes(a[1..])) + ChildrenBytes(b);
    }
  }

  lemma {:induction false} OneChild(c: Child)
    ensures c.id == 0 || c.mask == [] ==> ChildrenBytes([c]) == []
  {
    assert [c][1..] == [];
  }
}
