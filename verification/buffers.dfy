/** Buffer sizing: the reallocation decision of `ensure_buffer` (with
    `u64::next_power_of_two`) and std140 size alignment (`align_size`). */
module Buffers {
  import opened Results
  import opened MachineInts

  predicate IsPowerOfTwo(n: nat)
    decreases n
  {
    n == 1 || (n >= 2 && n % 2 == 0 && IsPowerOfTwo(n / 2))
  }

  /** Of two powers of two, the smaller is at most half the larger. */
  lemma {:induction false} SmallerPowerOfTwoAtMostHalf(m: nat, p: nat)
    requires IsPowerOfTwo(m) && IsPowerOfTwo(p) && m < p
    ensures m <= p / 2
    decreases m
  {
    if m != 1 {
      SmallerPowerOfTwoAtMostHalf(m / 2, p / 2);
    }
  }

  /** The least power of two that is at least `n`, searching upward from the
      power of two `p`, below which every power of two is too small. */
  function GrowPowerOfTwo(p: nat, n: nat): (r: nat)
    requires IsPowerOfTwo(p) && (p == 1 || p / 2 < n)
    ensures IsPowerOfTwo(r) && r >= n
    ensures r == 1 || r / 2 < n
    decreases n - p
  {
    if p >= n then p else GrowPowerOfTwo(2 * p, n)
  }

  /** `u64::next_power_of_two`: the least power of two that is at least `n`
      (1 for 0). The source panics when that power does not fit in a `u64`. */
  function NextPowerOfTwo(n: nat): (r: nat)
    requires n <= 0x8000_0000_0000_0000
    ensures IsPowerOfTwo(r) && r >= n
    ensures forall m: nat :: IsPowerOfTwo(m) && m >= n ==> r <= m
    ensures r <= U64_MAX
  {
    var r := GrowPowerOfTwo(1, n);
    forall m: nat | IsPowerOfTwo(m) && m >= n
      ensures r <= m
    {
      if m < r {
        SmallerPowerOfTwoAtMostHalf(m, r);
      }
    }
    r
  }

  /** A GPU buffer, of which only the size matters here. */
  datatype Buffer = Buffer(size: nat)

  /** The buffer after `ensure_buffer`, and whether it was reallocated. */
  datatype Ensured = Ensured(buffer: Option<Buffer>, reallocated: bool)

  /** The size of an optional buffer, 0 when absent. */
  function SizeOf(buffer: Option<Buffer>): nat {
    match buffer
    case None => 0
    case Some(b) => b.size
  }

  /** `ensure_buffer`: reallocate exactly when the buffer is smaller than
      `minSize`, to the least power of two that holds `minSize`. */
  function EnsureBuffer(buffer: Option<Buffer>, minSize: nat): (r: Ensured)
    requires minSize <= U64_MAX
    requires SizeOf(buffer) < minSize ==> minSize <= 0x8000_0000_0000_0000
    ensures r.reallocated <==> SizeOf(buffer) < minSize
    ensures !r.reallocated ==> r.buffer == buffer
    ensures r.reallocated ==>
              && r.buffer.Some?
              && IsPowerOfTwo(r.buffer.value.size)
              && r.buffer.value.size >= minSize
              && forall m: nat :: IsPowerOfTwo(m) && m >= minSize ==> r.buffer.value.size <= m
    ensures SizeOf(r.buffer) >= minSize
  {
    if SizeOf(buffer) < minSize then Ensured(Some(Buffer(NextPowerOfTwo(minSize))), true)
    else Ensured(buffer, false)
  }

  /** Once ensured for `minSize`, a buffer is not reallocated again for any
      size up to `minSize`. */
  lemma EnsureBufferSettles(buffer: Option<Buffer>, minSize: nat, later: nat)
    requires minSize <= 0x8000_0000_0000_0000 && later <= minSize
    ensures !EnsureBuffer(EnsureBuffer(buffer, minSize).buffer, later).reallocated
    ensures EnsureBuffer(EnsureBuffer(buffer, minSize).buffer, later).buffer
            == EnsureBuffer(buffer, minSize).buffer
  {
  }

  /** `a * d >= d` for a positive multiplier. */
  lemma {:induction false} MultiplyAtLeast(a: int, d: int)
    requires a >= 1 && d > 0
    ensures a * d >= d
    decreases a
  {
    if a > 1 {
      MultiplyAtLeast(a - 1, d);
      assert a * d == (a - 1) * d + d;
    }
  }

  /** Quotient and remainder are determined by `x == q * d + r`. */
  lemma DivModUnique(x: int, d: int, q: int, r: int)
    requires d > 0 && 0 <= r < d && x == q * d + r
    ensures x / d == q && x % d == r
  {
    var q', r' := x / d, x % d;
    assert x == q' * d + r';
    if q > q' {
      assert (q - q') * d == q * d - q' * d;
      MultiplyAtLeast(q - q', d);
    } else if q < q' {
      assert (q' - q) * d == q' * d - q * d;
      MultiplyAtLeast(q' - q, d);
    }
  }

  /** `align_size`: the byte size of `arrayLen` std140 elements of
      `elemSize` bytes, rounded up to a multiple of `align`. The source's
      `u64` arithmetic must not overflow. */
  function AlignSize(align: nat, elemSize: nat, arrayLen: nat): (r: nat)
    requires align > 0
    requires elemSize * arrayLen + align - 1 <= U64_MAX
    ensures r % align == 0
    ensures elemSize * arrayLen <= r < elemSize * arrayLen + align
  {
    var size := elemSize * arrayLen;
    var t := size + align - 1;
    var q := t / align;
    assert t == q * align + t % align;
    DivModUnique(q * align, align, q, 0);
    q * align
  }

  /** Two multiples of `d` that differ are at least `d` apart. */
  lemma MultiplesApart(a: nat, b: nat, d: nat)
    requires d > 0 && a % d == 0 && b % d == 0 && a < b
    ensures a + d <= b
  {
    var qa, qb := a / d, b / d;
    assert a == qa * d && b == qb * d;
    MultiplyAtLeast(qb - qa, d);
    assert (qb - qa) * d == b - a;
  }

  /** `align_size` is the least multiple of `align` that holds the array. */
  lemma AlignSizeIsLeast(align: nat, elemSize: nat, arrayLen: nat, m: nat)
    requires align > 0 && elemSize * arrayLen + align - 1 <= U64_MAX
    requires m % align == 0 && m >= elemSize * arrayLen
    ensures AlignSize(align, elemSize, arrayLen) <= m
  {
    var r := AlignSize(align, elemSize, arrayLen);
    if m < r {
      MultiplesApart(m, r, align);
    }
  }
}
