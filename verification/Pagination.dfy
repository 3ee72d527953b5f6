/**
 In-memory pagination of a list result, on 64-bit integers.
 */
module Pagination {

  newtype int64 = x: int | -0x8000_0000_0000_0000 <= x < 0x8000_0000_0000_0000

  function Min(a: int, b: int): int { if a < b then a else b }

  /** The page as mathematics has it; a size that is not positive means no pagination. */
  function Page<T>(items: seq<T>, page: int, size: int): (r: seq<T>)
    requires page >= 1
  {
    if size <= 0 then items
    else
      var start := Min(|items|, (page - 1) * size);
      var end := Min(|items|, page * size);
      PageBounds(|items|, page, size);
      items[start..end]
  }

  lemma {:induction false} PageBounds(n: nat, page: int, size: int)
    requires page >= 1 && size > 0
    ensures 0 <= (page - 1) * size && page * size == (page - 1) * size + size
  {
    assert page * size == (page - 1) * size + size;
    MulNonNegative(page - 1, size);
  }

  lemma {:induction false} MulNonNegative(a: int, b: int)
    requires a >= 0 && b >= 0
    ensures a * b >= 0
  {
  }

  /** A page index of at most n / size is exactly one whose start is within the list. */
  lemma {:induction false} StartWithin(n: nat, index: nat, size: int)
    requires size > 0
    ensures index <= n / size <==> index * size <= n
  {
    var q := n / size;
    assert q * size <= n < (q + 1) * size;
    if index <= q {
      MulNonNegative(q - index, size);
      assert q * size == index * size + (q - index) * size;
    } else {
      MulNonNegative(index - (q + 1), size);
      assert index * size == (q + 1) * size + (index - (q + 1)) * size;
    }
  }

  /** The emitted slice: every intermediate value fits 64 bits, the bounds are within the list, and the
      result is the mathematical page, however large the page number is. */
  method InMemoryPage<T>(items: seq<T>, page: int64, pageSize: int64) returns (out: seq<T>, total: int64)
    requires |items| < 0x8000_0000_0000_0000 && page >= 1
    ensures out == Page(items, page as int, pageSize as int)
    ensures total as int == |items|
  {
    total := |items| as int64;
    out := items;
    if pageSize > 0 {
      var index := page - 1;
      var start := |items| as int64;
      StartWithin(|items|, index as int, pageSize as int);
      PageBounds(|items|, page as int, pageSize as int);
      assert total / pageSize == (|items| / (pageSize as int)) as int64;
      if index <= total / pageSize {
        start := index * pageSize;
      }
      var end := |items| as int64;
      if pageSize < end - start {
        end := start + pageSize;
      }
      out := items[start..end];
    }
  }

  /** The first `n` pages, one after the other. */
  function Pages<T>(items: seq<T>, size: int, n: nat): seq<T> {
    if n == 0 then [] else Pages(items, size, n - 1) + Page(items, n, size)
  }

  lemma {:induction false} PagesArePrefix<T>(items: seq<T>, size: int, n: nat)
    requires size > 0
    ensures 0 <= n * size && Pages(items, size, n) == items[..Min(|items|, n * size)]
    decreases n
  {
    if n > 0 {
      PagesArePrefix(items, size, n - 1);
      PageBounds(|items|, n, size);
    }
  }

  /** Enough pages give back the list, no item lost or repeated. */
  lemma {:induction false} AllPagesAreList<T>(items: seq<T>, size: int, n: nat)
    requires size > 0 && n * size >= |items|
    ensures Pages(items, size, n) == items
  {
    PagesArePrefix(items, size, n);
  }
}
