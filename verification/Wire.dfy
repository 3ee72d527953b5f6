/**
 The primitives of the Luxo wire format: unsigned varints, zig-zag signed varints, fixed
 little-endian words, length-prefixed bytes and booleans, all read from a buffer at an offset.
 */
module Wire {

  type byte = b: int | 0 <= b < 256
  type Bytes = seq<byte>

  const TWO63 := 0x8000_0000_0000_0000
  const TWO64 := 0x1_0000_0000_0000_0000

  /** Outcome of a typed read: the value and the offset after it, or a recorded decoder error. */
  datatype Parsed<+T> = Got(value: T, next: nat) | Bad

  /** The encoding `enc` occupies `buf` from offset `off` on. */
  predicate At(buf: Bytes, off: nat, enc: Bytes) {
    off + |enc| <= |buf| && buf[off..off + |enc|] == enc
  }

  lemma AtConcat(buf: Bytes, off: nat, a: Bytes, b: Bytes)
    ensures At(buf, off, a + b) <==> At(buf, off, a) && At(buf, off + |a|, b)
  {
    if At(buf, off, a + b) {
      assert buf[off..off + |a|] == (a + b)[..|a|];
      assert buf[off + |a|..off + |a| + |b|] == (a + b)[|a|..];
    }
    if At(buf, off, a) && At(buf, off + |a|, b) {
      assert buf[off..off + |a + b|] == buf[off..off + |a|] + buf[off + |a|..off + |a| + |b|];
    }
  }

  /** Reinterprets a uint64 as a Go int (two's complement). */
  function ToInt(v: nat): int {
    if v < TWO63 then v else v - TWO64
  }

  // ---------------------------------------------------------------- unsigned varints

  function Pow128(k: nat): (p: nat)
    ensures p > 0
  {
    if k == 0 then 1 else 128 * Pow128(k - 1)
  }

  /** Seven bits per byte, least significant group first, high bit set on all but the last byte. */
  function Varint(v: nat): (enc: Bytes)
    ensures |enc| > 0
  {
    if v < 128 then [v] else [v % 128 + 128] + Varint(v / 128)
  }

  method AppendVarint(dst: Bytes, v: nat) returns (out: Bytes)
    requires v < TWO64
    ensures out == dst + Varint(v)
  {
    out := dst;
    var w := v;
    while w >= 128
      invariant out + Varint(w) == dst + Varint(v)
    {
      assert out + Varint(w) == (out + [w % 128 + 128]) + Varint(w / 128);
      out := out + [w % 128 + 128];
      w := w / 128;
    }
    out := out + [w];
  }

  /** The reading loop: `v` holds the groups read so far, `k` their number. The bits of a group
      lie above those of `v`, so the bitwise "or" is an addition; the shift drops what exceeds 64 bits. */
  function VarintLoop(buf: Bytes, off: nat, i: nat, v: nat, k: nat): (r: (nat, int))
    requires off <= i <= |buf|
    ensures r.1 <= |buf| - off
    decreases |buf| - i
  {
    if i == |buf| then (0, 0)
    else
      var v' := v + (buf[i] % 128 * Pow128(k)) % TWO64;
      if buf[i] < 128 then (v', i - off + 1)
      else if 7 * (k + 1) >= 64 then (0, -1)
      else VarintLoop(buf, off, i + 1, v', k + 1)
  }

  /** The value and the number of bytes consumed; 0 bytes when truncated, -1 on overflow. */
  function ReadVarint(buf: Bytes, off: nat): (r: (nat, int))
    ensures r.1 > 0 ==> off + r.1 <= |buf|
  {
    if off >= |buf| then (0, 0) else VarintLoop(buf, off, off, 0, 0)
  }

  /** What is read is a uint64, also where a tenth byte has bits to spare. */
  lemma {:induction false} VarintBounded(buf: Bytes, off: nat, i: nat, v: nat, k: nat)
    requires off <= i <= |buf| && k <= 9 && v < Pow128(k)
    ensures VarintLoop(buf, off, i, v, k).0 < TWO64
    decreases |buf| - i
  {
    Pow128Nine();
    if i < |buf| {
      var group, v' := buf[i] % 128 * Pow128(k), v + (buf[i] % 128 * Pow128(k)) % TWO64;
      if k < 9 {
        assert group <= 127 * Pow128(k);
        assert group % TWO64 <= group;
        Pow128Monotone(k + 1, 9);
        if buf[i] >= 128 {
          VarintBounded(buf, off, i + 1, v', k + 1);
        }
      } else {
        var b := buf[i] % 128;
        assert group == b / 2 * TWO64 + b % 2 * TWO63;
        assert group % TWO64 == b % 2 * TWO63;
      }
    }
  }

  lemma {:induction false} Pow128Nine()
    ensures Pow128(9) == TWO63
  {
    assert Pow128(3) == 128 * (128 * 128);
    assert Pow128(6) == 128 * (128 * (128 * Pow128(3)));
    assert Pow128(9) == 128 * (128 * (128 * Pow128(6)));
  }

  lemma {:induction false} ReadVarintBounded(buf: Bytes, off: nat)
    ensures ReadVarint(buf, off).0 < TWO64
  {
    if off < |buf| {
      VarintBounded(buf, off, off, 0, 0);
    }
  }

  lemma {:induction false} Pow128Monotone(j: nat, k: nat)
    requires j <= k
    ensures Pow128(j) <= Pow128(k)
  {
    if j < k {
      Pow128Monotone(j, k - 1);
    }
  }

  lemma Pow128Bound(k: nat)
    requires Pow128(k) < TWO64
    ensures k <= 9
  {
    assert Pow128(10) == 128 * (128 * (128 * (128 * (128 * (128 * (128 * (128 * (128 * 128))))))));
    if k >= 10 {
      Pow128Monotone(10, k);
    }
  }

  lemma MulMonotone(a: nat, b: nat, p: nat)
    requires a <= b
    ensures a * p <= b * p
  {
    assert b * p == a * p + (b - a) * p;
  }

  lemma Regroup(q: nat, r: nat, p: nat)
    ensures r * p + q * (128 * p) == (128 * q + r) * p
  {
  }

  /** The lowest group of `w` and the groups above it, weighed by `p`. */
  lemma GroupSplit(w: nat, p: nat)
    requires p > 0
    ensures w % 128 * p + w / 128 * (128 * p) == w * p
    ensures w % 128 * p <= w * p
    ensures w >= 128 ==> 128 * p <= w * p
  {
    Regroup(w / 128, w % 128, p);
    assert w == 128 * (w / 128) + w % 128;
    MulMonotone(w % 128, w, p);
    if w >= 128 {
      MulMonotone(128, w, p);
    }
  }

  /** One turn of the reading loop on a group whose bits all fit. */
  lemma {:induction false} VarintLoopStep(buf: Bytes, off: nat, i: nat, v: nat, k: nat, group: nat)
    requires off <= i < |buf| && buf[i] % 128 == group && group * Pow128(k) < TWO64
    ensures VarintLoop(buf, off, i, v, k) ==
      if buf[i] < 128 then (v + group * Pow128(k), i - off + 1)
      else if 7 * (k + 1) >= 64 then (0, -1)
      else VarintLoop(buf, off, i + 1, v + group * Pow128(k), k + 1)
  {
    var x := group * Pow128(k);
    assert buf[i] % 128 * Pow128(k) == x;
    assert x % TWO64 == x;
  }

  /** The first byte of a varint and what follows it. */
  lemma {:induction false} VarintBytes(buf: Bytes, i: nat, w: nat)
    requires At(buf, i, Varint(w))
    ensures i < |buf| && buf[i] % 128 == w % 128 && (buf[i] < 128 <==> w < 128)
    ensures w < 128 ==> |Varint(w)| == 1
    ensures w >= 128 ==> At(buf, i + 1, Varint(w / 128)) && |Varint(w)| == 1 + |Varint(w / 128)|
  {
    assert buf[i] == Varint(w)[0];
    if w >= 128 {
      AtConcat(buf, i, [w % 128 + 128], Varint(w / 128));
    }
  }

  lemma {:induction false} VarintLoopReads(buf: Bytes, off: nat, i: nat, v: nat, k: nat, w: nat)
    requires off <= i && At(buf, i, Varint(w))
    requires w * Pow128(k) < TWO64 && Pow128(k) < TWO64
    ensures VarintLoop(buf, off, i, v, k) == (v + w * Pow128(k), i - off + |Varint(w)|)
    decreases w
  {
    hide VarintLoop, Varint, At;
    GroupSplit(w, Pow128(k));
    VarintBytes(buf, i, w);
    VarintLoopStep(buf, off, i, v, k, w % 128);
    if w >= 128 {
      Pow128Bound(k + 1);
      VarintLoopReads(buf, off, i + 1, v + w % 128 * Pow128(k), k + 1, w / 128);
    }
  }

  /** Every uint64 is read back from its varint, which is consumed exactly, whatever follows it. */
  lemma VarintRoundTrip(buf: Bytes, off: nat, v: nat)
    requires v < TWO64 && At(buf, off, Varint(v))
    ensures ReadVarint(buf, off) == (v, |Varint(v)|)
  {
    VarintLoopReads(buf, off, off, 0, 0, v);
  }

  // ---------------------------------------------------------------- signed varints

  predicate IsInt64(v: int) { -TWO63 <= v < TWO63 }

  /** uint64(v<<1) ^ uint64(v>>63), on the integers. */
  function ZigZag(v: int): (z: int)
    requires IsInt64(v)
    ensures 0 <= z < TWO64
  {
    if v >= 0 then 2 * v else -2 * v - 1
  }

  function UnZigZag(z: nat): int {
    if z % 2 == 0 then z / 2 else -(z / 2) - 1
  }

  function ReadSvarint(buf: Bytes, off: nat): (r: Parsed<int>)
    ensures r.Got? ==> off < r.next <= |buf|
  {
    var (z, n) := ReadVarint(buf, off);
    if n <= 0 then Bad else Got(UnZigZag(z), off + n)
  }

  // ---------------------------------------------------------------- fixed-width words

  function Pow256(k: nat): (p: nat)
    ensures p > 0
  {
    if k == 0 then 1 else 256 * Pow256(k - 1)
  }

  /** The `k` low-order bytes of `n`, least significant first. */
  function LittleEndian(n: nat, k: nat): (enc: Bytes)
    ensures |enc| == k
  {
    if k == 0 then [] else [n % 256] + LittleEndian(n / 256, k - 1)
  }

  function FromLittleEndian(bs: Bytes): nat {
    if bs == [] then 0 else bs[0] + 256 * FromLittleEndian(bs[1..])
  }

  lemma {:induction false} LittleEndianRoundTrip(n: nat, k: nat)
    requires n < Pow256(k)
    ensures FromLittleEndian(LittleEndian(n, k)) == n
  {
    if k > 0 {
      LittleEndianRoundTrip(n / 256, k - 1);
      assert LittleEndian(n, k)[1..] == LittleEndian(n / 256, k - 1);
    }
  }

  function ReadFixed64(buf: Bytes, off: nat): (r: Parsed<nat>)
    ensures r.Got? ==> off < r.next <= |buf|
  {
    if off + 8 > |buf| then Bad else Got(FromLittleEndian(buf[off..off + 8]), off + 8)
  }

  function ReadFixed16(buf: Bytes, off: nat): (r: Parsed<Bytes>)
    ensures r.Got? ==> off < r.next <= |buf|
  {
    if off + 16 > |buf| then Bad else Got(buf[off..off + 16], off + 16)
  }

  // ---------------------------------------------------------------- bytes, booleans, counts

  function LengthPrefixed(v: Bytes): (enc: Bytes)
    ensures |enc| > |v|
  {
    Varint(|v|) + v
  }

  function ReadBytes(buf: Bytes, off: nat): (r: Parsed<Bytes>)
    ensures r.Got? ==> off < r.next <= |buf|
  {
    var (length, n) := ReadVarint(buf, off);
    if n <= 0 || length > |buf| || off + n + length > |buf| then Bad
    else Got(buf[off + n..off + n + length], off + n + length)
  }

  lemma BytesRoundTrip(buf: Bytes, off: nat, v: Bytes)
    requires |v| < TWO63 && At(buf, off, LengthPrefixed(v))
    ensures ReadBytes(buf, off) == Got(v, off + |LengthPrefixed(v)|)
  {
    AtConcat(buf, off, Varint(|v|), v);
    VarintRoundTrip(buf, off, |v|);
  }

  function Flag(b: bool): (enc: Bytes) { if b then [1] else [0] }

  /** Booleans and presence markers share one encoding and one reader. */
  function ReadFlag(buf: Bytes, off: nat): (r: Parsed<bool>)
    ensures r.Got? ==> off < r.next <= |buf|
  {
    if off >= |buf| || buf[off] > 1 then Bad else Got(buf[off] == 1, off + 1)
  }

  const MAX_ARRAY_ELEMENTS := 1_000_000

  /** The array header; a count whose int conversion is negative makes the allocation after it panic. */
  function ReadArrayLength(buf: Bytes, off: nat): (r: Parsed<nat>)
    ensures r.Got? ==> off < r.next <= |buf|
  {
    var (count, n) := ReadVarint(buf, off);
    if n <= 0 || ToInt(count) > MAX_ARRAY_ELEMENTS || ToInt(count) < 0 then Bad
    else Got(count, off + n)
  }
}
