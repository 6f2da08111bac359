/** The fixed-capacity byte ring used by the frame-loss tracker
    (`obsidian.server.util.ByteRingBuffer`).

    The model follows the Kotlin class literally: the constructor argument is
    both the capacity and the initial `size`, `sum` adds every slot of the
    backing array, and `sub`/`inc` keep their `takeIf { mod < it } ?: 0`
    guards, which send every in-range index to slot 0. The members whose names
    end in `Fixed` use index arithmetic modulo the capacity instead; they are
    proved to read a sliding window of the most recent values. */
module ByteRingBuffer {
  import opened Wrappers
  import opened KotlinInt

  datatype Ring = Ring(arr: seq<Byte>, pos: int, size: int)
  {
    /** The class invariant. An array of `Int.MAX_VALUE` elements cannot be
        allocated on the JVM, so `size + 1` never overflows. */
    predicate Valid()
    {
      1 <= |arr| < INT_MAX && 0 <= pos < |arr| && 0 <= size <= |arr|
    }
  }

  function Zeros(n: nat): (s: seq<Byte>)
    ensures |s| == n
    ensures forall k :: 0 <= k < n ==> s[k] == 0
  {
    seq(n, _ => 0)
  }

  /** The constructor: `require(size >= 1)`, then `ByteArray(size)`. */
  function New(capacity: Int): (r: Result<Ring, Failure>)
    ensures capacity < 1 <==> r == Err(IllegalArgument)
    ensures capacity >= INT_MAX ==> r == Err(OutOfMemory)
    ensures r.Ok? ==> r.value.Valid() && |r.value.arr| == capacity && r.value.pos == 0
    ensures r.Ok? ==> r.value.size == capacity && r.value.arr == Zeros(capacity)
  {
    if capacity < 1 then Err(IllegalArgument)
    else if capacity >= INT_MAX then Err(OutOfMemory)
    else Ok(Ring(Zeros(capacity), 0, capacity))
  }

  /** Stores `v` at the write position, overwriting the oldest value once full. */
  function Put(b: Ring, v: Byte): (r: Ring)
    requires b.Valid()
    ensures r.Valid() && |r.arr| == |b.arr|
    ensures r.arr[b.pos] == v
    ensures forall k :: 0 <= k < |b.arr| && k != b.pos ==> r.arr[k] == b.arr[k]
    ensures r.pos == if b.pos + 1 < |b.arr| then b.pos + 1 else 0
    ensures r.size == if b.size < |b.arr| then b.size + 1 else b.size
  {
    var cap := |b.arr|;
    Ring(b.arr[b.pos := v], (b.pos + 1) % cap, if b.size + 1 < cap then b.size + 1 else cap)
  }

  function Clear(b: Ring): (r: Ring)
    requires b.Valid()
    ensures r.Valid() && |r.arr| == |b.arr|
    ensures r.pos == 0 && r.size == 0
    ensures forall k :: 0 <= k < |r.arr| ==> r.arr[k] == 0
  {
    Ring(Zeros(|b.arr|), 0, 0)
  }

  /** The exact sum of a byte sequence, folded from the left like the Kotlin loop. */
  function SumOf(s: seq<Byte>): int
  {
    if s == [] then 0 else SumOf(s[..|s| - 1]) + s[|s| - 1]
  }

  lemma {:induction false} SumOfBounds(s: seq<Byte>)
    ensures BYTE_MIN * |s| <= SumOf(s) <= BYTE_MAX * |s|
  {
    if s != [] {
      SumOfBounds(s[..|s| - 1]);
    }
  }

  /** `sum()`: every slot of the backing array, live or not, added into an Int. */
  method Sum(b: Ring) returns (total: Int)
    requires b.Valid()
    ensures total == WrapInt(SumOf(b.arr))
  {
    total := 0;
    var i := 0;
    while i < |b.arr|
      invariant 0 <= i <= |b.arr|
      invariant total == WrapInt(SumOf(b.arr[..i]))
    {
      assert b.arr[..i + 1][..i] == b.arr[..i];
      WrapIntAdd(SumOf(b.arr[..i]), b.arr[i]);
      total := WrapInt(total + b.arr[i]);
      i := i + 1;
    }
    assert b.arr[..i] == b.arr;
  }

  /** For a buffer of at most 2^24 slots the Int sum cannot wrap. */
  lemma {:induction false} SumIsExact(b: Ring)
    requires b.Valid() && |b.arr| <= 0x100_0000
    ensures WrapInt(SumOf(b.arr)) == SumOf(b.arr)
  {
    SumOfBounds(b.arr);
  }

  lemma {:induction false} SumOfZeros(n: nat)
    ensures SumOf(Zeros(n)) == 0
  {
    if n > 0 {
      assert Zeros(n)[..n - 1] == Zeros(n - 1);
      SumOfZeros(n - 1);
    }
  }

  /** After `clear()` the sum is 0. */
  lemma ClearSumsToZero(b: Ring)
    requires b.Valid()
    ensures SumOf(Clear(b).arr) == 0
  {
    SumOfZeros(|b.arr|);
  }

  lemma {:induction false} SumOfUpdate(s: seq<Byte>, i: int, v: Byte)
    requires 0 <= i < |s|
    ensures SumOf(s[i := v]) == SumOf(s) - s[i] + v
  {
    if i < |s| - 1 {
      assert s[i := v][..|s| - 1] == s[..|s| - 1][i := v];
      SumOfUpdate(s[..|s| - 1], i, v);
    } else {
      assert s[i := v][..|s| - 1] == s[..|s| - 1];
    }
  }

  /** `put` changes the sum by the new value minus the overwritten slot. */
  lemma PutChangesSum(b: Ring, v: Byte)
    requires b.Valid()
    ensures SumOf(Put(b, v).arr) == SumOf(b.arr) - b.arr[b.pos] + v
  {
    assert Put(b, v).arr == b.arr[b.pos := v];
    SumOfUpdate(b.arr, b.pos, v);
  }

  /** The companion `sub`, as written: `(i - j).takeIf { mod < it } ?: 0`. */
  function Sub(i: Int, j: Int, mod: Int): Int
  {
    var d := WrapInt(i - j);
    if mod < d then d else 0
  }

  /** The companion `inc`, as written: `i.inc().takeIf { mod < it } ?: 0`. */
  function Inc(i: Int, mod: Int): Int
  {
    var d := WrapInt(i + 1);
    if mod < d then d else 0
  }

  /** Neither helper ever yields an index strictly between 0 and `mod`: the
      result is slot 0 or lies beyond the array. */
  lemma IndexHelpersSkipTheArray(i: Int, j: Int, mod: Int)
    requires 0 <= mod
    ensures Sub(i, j, mod) == 0 || Sub(i, j, mod) > mod
    ensures Inc(i, mod) == 0 || Inc(i, mod) > mod
    ensures 0 <= i < mod ==> Inc(i, mod) == 0
  {
  }

  /** Reading a computed index: the JVM bounds check. */
  function At(b: Ring, idx: Int): (r: Result<Byte, Failure>)
    ensures r.Ok? <==> 0 <= idx < |b.arr|
    ensures r.Ok? ==> r.value == b.arr[idx]
    ensures r.Err? ==> r.error == IndexOutOfBounds
  {
    if 0 <= idx < |b.arr| then Ok(b.arr[idx]) else Err(IndexOutOfBounds)
  }

  /** `get(n)` as written. */
  function Get(b: Ring, n: Int): (r: Result<Byte, Failure>)
    requires b.Valid()
    ensures n >= b.size ==> r == Err(NoSuchElement)
    ensures 0 <= n < b.size ==> r == Ok(b.arr[0])
    ensures r.Ok? ==> r.value == b.arr[0]
  {
    if n >= b.size then Err(NoSuchElement)
    else At(b, Sub(b.pos, WrapInt(b.size - n), |b.arr|))
  }

  /** `getLast(n)` as written. */
  function GetLast(b: Ring, n: Int): (r: Result<Byte, Failure>)
    requires b.Valid()
    ensures n >= b.size ==> r == Err(NoSuchElement)
    ensures 0 <= n < b.size ==> r == Ok(b.arr[0])
    ensures r.Ok? ==> r.value == b.arr[0]
  {
    if n >= b.size then Err(NoSuchElement)
    else At(b, Sub(b.pos, WrapInt(n + 1), |b.arr|))
  }

  /** A negative index can escape the `n >= size` guard and run off the array. */
  lemma NegativeIndexOverruns()
    ensures var b := Ring([1, 2, 3], 0, 3);
            b.Valid() && Get(b, INT_MIN) == Err(IndexOutOfBounds) &&
            GetLast(b, -100) == Err(IndexOutOfBounds)
  {
  }

  /** The iterator as written: it starts at `pos`, yields `size` values and
      moves its cursor with `inc`. */
  method Iterate(b: Ring) returns (out: seq<Byte>)
    requires b.Valid()
    ensures |out| == b.size
    ensures b.size > 0 ==> out[0] == b.arr[b.pos]
    ensures forall k :: 1 <= k < |out| ==> out[k] == b.arr[0]
  {
    out := [];
    var cursor := b.pos;
    var remaining := b.size;
    while remaining > 0
      invariant 0 <= remaining <= b.size
      invariant |out| == b.size - remaining
      invariant 0 <= cursor < |b.arr|
      invariant |out| == 0 ==> cursor == b.pos
      invariant |out| > 0 ==> cursor == 0 && out[0] == b.arr[b.pos]
      invariant forall k :: 1 <= k < |out| ==> out[k] == b.arr[0]
    {
      out := out + [b.arr[cursor]];
      cursor := Inc(cursor, |b.arr|);
      remaining := remaining - 1;
    }
  }

  // ---------------------------------------------------------------------
  // Index arithmetic modulo the capacity, and the window it reads.

  /** `i - j` brought back into `0..mod - 1`. */
  function SubFixed(i: int, j: int, mod: int): (r: int)
    requires 0 <= i < mod && 0 <= j <= mod
    ensures 0 <= r < mod
    ensures r == i - j || r == i - j + mod
  {
    if i - j < 0 then i - j + mod else i - j
  }

  /** `i + 1` brought back into `0..mod - 1`. */
  function IncFixed(i: int, mod: int): (r: int)
    requires 0 <= i < mod
    ensures 0 <= r < mod
    ensures r == i + 1 || (r == 0 && i + 1 == mod)
  {
    if i + 1 < mod then i + 1 else 0
  }

  /** The live values, oldest first: the `size` slots that end just before `pos`. */
  function Contents(b: Ring): (c: seq<Byte>)
    requires b.Valid()
    ensures |c| == b.size
  {
    seq(b.size, k requires 0 <= k < b.size => b.arr[SubFixed(b.pos, b.size - k, |b.arr|)])
  }

  /** `get(n)` with modular index arithmetic: the n-th oldest live value. */
  function GetFixed(b: Ring, n: Int): (r: Result<Byte, Failure>)
    requires b.Valid()
    ensures !(0 <= n < b.size) <==> r == Err(NoSuchElement)
    ensures 0 <= n < b.size ==> r == Ok(Contents(b)[n])
  {
    if n < 0 || n >= b.size then Err(NoSuchElement)
    else Ok(b.arr[SubFixed(b.pos, b.size - n, |b.arr|)])
  }

  /** `getLast(n)` with modular index arithmetic: the n-th newest live value. */
  function GetLastFixed(b: Ring, n: Int): (r: Result<Byte, Failure>)
    requires b.Valid()
    ensures !(0 <= n < b.size) <==> r == Err(NoSuchElement)
    ensures 0 <= n < b.size ==> r == Ok(Contents(b)[b.size - 1 - n])
  {
    if n < 0 || n >= b.size then Err(NoSuchElement)
    else Ok(b.arr[SubFixed(b.pos, n + 1, |b.arr|)])
  }

  /** The iterator with its cursor starting at the oldest slot and moved by
      `IncFixed`: it yields the live values oldest first. */
  method IterateFixed(b: Ring) returns (out: seq<Byte>)
    requires b.Valid()
    ensures out == Contents(b)
  {
    var cap := |b.arr|;
    out := [];
    var cursor := SubFixed(b.pos, b.size, cap);
    var remaining := b.size;
    while remaining > 0
      invariant 0 <= remaining <= b.size
      invariant |out| == b.size - remaining
      invariant 0 <= cursor < cap
      invariant remaining > 0 ==> cursor == SubFixed(b.pos, remaining, cap)
      invariant out == Contents(b)[..|out|]
    {
      out := out + [b.arr[cursor]];
      cursor := IncFixed(cursor, cap);
      remaining := remaining - 1;
    }
  }

  /** The last `n` elements of `s` (all of `s` when it is shorter). */
  function Last<T>(n: nat, s: seq<T>): (r: seq<T>)
    ensures |r| == if |s| < n then |s| else n
    ensures r == s[|s| - |r|..]
  {
    if |s| <= n then s else s[|s| - n..]
  }

  /** One `put` slides the window: the new value is appended and, once the
      buffer is full, the oldest value drops out. */
  lemma PutSlidesWindow(b: Ring, v: Byte)
    requires b.Valid()
    ensures Contents(Put(b, v)) ==
            (if b.size < |b.arr| then Contents(b) else Contents(b)[1..]) + [v]
  {
    var r := Put(b, v);
    var cap := |b.arr|;
    var w := if b.size < cap then Contents(b) else Contents(b)[1..];
    assert |Contents(r)| == |w| + 1;
    forall k | 0 <= k < |Contents(r)|
      ensures Contents(r)[k] == (w + [v])[k]
    {
      var idx := SubFixed(r.pos, r.size - k, cap);
      assert Contents(r)[k] == r.arr[idx];
      if k == |w| {
        assert idx == b.pos;
      } else {
        var k' := if b.size < cap then k else k + 1;
        assert w[k] == Contents(b)[k'];
        assert idx == SubFixed(b.pos, b.size - k', cap);
        assert idx != b.pos;
      }
    }
  }

  /** `put` of each value of `xs` in turn. */
  function PutAll(b: Ring, xs: seq<Byte>): (r: Ring)
    requires b.Valid()
    ensures r.Valid() && |r.arr| == |b.arr|
    decreases |xs|
  {
    if xs == [] then b else PutAll(Put(b, xs[0]), xs[1..])
  }

  lemma LastDropsHead<T>(n: nat, s: seq<T>, t: seq<T>)
    requires |s| == n >= 1 && |t| >= 1
    ensures Last(n, s[1..] + t) == Last(n, s + t)
  {
    assert (s[1..] + t) == (s + t)[1..];
  }

  /** Whatever was put, the live values are the last `capacity` of them. */
  lemma {:induction false} PutAllKeepsLastValues(b: Ring, xs: seq<Byte>)
    requires b.Valid()
    ensures Contents(PutAll(b, xs)) == Last(|b.arr|, Contents(b) + xs)
    decreases |xs|
  {
    if xs == [] {
      assert Contents(b) + xs == Contents(b);
    } else {
      var b' := Put(b, xs[0]);
      PutSlidesWindow(b, xs[0]);
      PutAllKeepsLastValues(b', xs[1..]);
      assert Contents(b') + xs[1..] ==
             (if b.size < |b.arr| then Contents(b) else Contents(b)[1..]) + xs;
      if b.size == |b.arr| {
        LastDropsHead(|b.arr|, Contents(b), xs);
      }
    }
  }

  /** One `put`: the live values are the last `capacity` of the old ones
      followed by the new value. */
  lemma PutKeepsLastValues(b: Ring, v: Byte)
    requires b.Valid()
    ensures Contents(Put(b, v)) == Last(|b.arr|, Contents(b) + [v])
  {
    PutAllKeepsLastValues(b, [v]);
    assert PutAll(b, [v]) == Put(b, v);
  }

  /** A cleared buffer that is then fed `xs` holds exactly the last
      `capacity` values of `xs`. */
  lemma ClearThenPutAll(b: Ring, xs: seq<Byte>)
    requires b.Valid()
    ensures Contents(PutAll(Clear(b), xs)) == Last(|b.arr|, xs)
  {
    PutAllKeepsLastValues(Clear(b), xs);
    assert Contents(Clear(b)) + xs == xs;
  }

  /** As written, `get` does not return the n-th oldest value: after putting
      1, 2, 3 into a buffer of three, `get(2)` returns 1, not the newest 3,
      and the iterator yields 1, 1, 1. The fixed reads return 3 and 1, 2, 3. */
  method WrittenReadsDisagreeWithWindow() returns (written: seq<Byte>, fixed: seq<Byte>)
    ensures written == [1, 1, 1] && fixed == [1, 2, 3]
  {
    var b0 := Ring([0, 0, 0], 0, 3);
    var b := PutAll(Clear(b0), [1, 2, 3]);
    ClearThenPutAll(b0, [1, 2, 3]);
    assert b == Ring([1, 2, 3], 0, 3);
    assert Get(b, 2) == Ok(1);
    assert GetFixed(b, 2) == Ok(3);
    assert GetLast(b, 0) == Ok(1) && GetLastFixed(b, 0) == Ok(3);
    written := Iterate(b);
    fixed := IterateFixed(b);
  }
}
