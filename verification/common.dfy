/** Vocabulary shared by every part of the VDO capture model: fixed-width
    unsigned integers with their C wrap-around, the optional value, the
    failure kinds the capture backend raises, and the outcome of a step that
    can fail part-way through. */
module Common {

  const U32: nat := 0x1_0000_0000
  const U64: nat := 0x1_0000_0000_0000_0000

  /** `uint32_t` */
  type u32 = x: nat | x < U32
  /** `uint64_t` and `size_t` (the target is 64-bit) */
  type u64 = x: nat | x < U64

  /** Reduction of an exact result to 32 bits, as C unsigned arithmetic does. */
  function Wrap32(x: nat): (r: u32)
    ensures x < U32 ==> r == x
    ensures (x - r) % U32 == 0
  {
    x % U32
  }

  /** Reduction of an exact result to 64 bits, as C unsigned arithmetic does. */
  function Wrap64(x: int): (r: u64)
    ensures 0 <= x < U64 ==> r == x
    ensures (x - r) % U64 == 0
  {
    x % U64
  }

  function Max(a: nat, b: nat): nat {
    if a < b then b else a
  }

  datatype Option<+T> = None | Some(value: T)

  /** The exceptions the capture backend throws, one constructor per message. */
  datatype Error =
    | UnsupportedFormat                 // requested fourcc has no VDO subformat
    | FormatMismatch(subformat: string) // negotiated subformat differs from the request
    | InvalidStride                     // negotiated pitch is narrower than the width
    | StreamError(message: string)      // a VDO call failed; its message is passed on
    | ClockFailed                       // the monotonic clock could not be read
    | NoFrame                           // a pulled buffer carries no frame
    | NoData                            // the held buffer has no data pointer
    | InvalidNv12Buffer                 // conversion source has no data pointer
    | OutOfMemory                       // the conversion target could not be created
    | InvalidRgb3Buffer                 // the conversion target has no data pointer
    | ConversionRefused                 // cvtColor rejected the NV12 image size
    | Exhausted                         // the finite stream ran dry (the device blocks)

  /** The result of a step that mutates state and may throw: on failure the
      state is the one at the throw point, since C++ does not roll back the
      fields a member function assigned before the exception. */
  datatype Outcome<S, T> =
    | Done(state: S, value: T)
    | Failed(state: S, error: Error)

  /** Sensor row/column geometry: width, height and row pitch in bytes. */
  datatype FrameSize = FrameSize(width: u32, height: u32, stride: u32)

  function Pow2(k: nat): (r: nat)
    ensures r >= 1
  {
    if k == 0 then 1 else 2 * Pow2(k - 1)
  }

  /** C's `a & b` on unsigned integers, one bit at a time. */
  function BitAnd(a: nat, b: nat): (r: nat)
    ensures r <= a && r <= b
    decreases a
  {
    if a == 0 || b == 0 then 0
    else 2 * BitAnd(a / 2, b / 2) + (if a % 2 == 1 && b % 2 == 1 then 1 else 0)
  }

  /** C's `~m` on a 64-bit unsigned integer. */
  function BitNot64(m: u64): u64 {
    U64 - 1 - m
  }

  lemma {:induction false} Pow2Monotone(j: nat, k: nat)
    requires j <= k
    ensures Pow2(j) <= Pow2(k)
    decreases k
  {
    if j < k {
      Pow2Monotone(j, k - 1);
    }
  }

  lemma {:induction false} Pow2Add(a: nat, b: nat)
    ensures Pow2(a + b) == Pow2(a) * Pow2(b)
    decreases a
  {
    if a > 0 {
      Pow2Add(a - 1, b);
      assert Pow2(a + b) == 2 * Pow2(a - 1 + b);
    }
  }

  lemma Pow2Of64()
    ensures Pow2(64) == U64
  {
    assert Pow2(2) == 4;
    Pow2Add(2, 2);
    assert Pow2(4) == 16;
    Pow2Add(4, 4);
    assert Pow2(8) == 256;
    Pow2Add(8, 8);
    assert Pow2(16) == 0x1_0000;
    Pow2Add(16, 16);
    assert Pow2(32) == 0x1_0000_0000;
    Pow2Add(32, 32);
  }

  /** Splitting a remainder by a power of two into its lowest bit and the rest. */
  lemma ModDouble(x: nat, q: nat)
    requires q >= 1
    ensures x % (2 * q) == x % 2 + 2 * ((x / 2) % q)
  {
    var h := x / 2;
    var r := x % 2 + 2 * (h % q);
    assert x == 2 * q * (h / q) + r by {
      assert x == 2 * h + x % 2;
      assert h == q * (h / q) + h % q;
    }
    assert 0 <= r < 2 * q;
    DivModUnique(x, 2 * q, h / q, r);
  }

  lemma DivModUnique(x: nat, d: nat, quot: nat, rem: nat)
    requires d >= 1 && rem < d && x == d * quot + rem
    ensures x % d == rem && x / d == quot
  {
    var q0 := x / d;
    assert x == d * q0 + x % d;
    assert d * (quot - q0) == x % d - rem;
    MultipleBelowDivisor(d, quot - q0);
  }

  lemma MultipleBelowDivisor(d: int, t: int)
    requires d >= 1 && -d < d * t < d
    ensures t == 0
  {
    if t >= 1 {
      MulAtLeast(d, t);
    } else if t <= -1 {
      MulAtLeast(d, -t);
    }
  }

  lemma MulAtLeast(d: int, t: int)
    requires d >= 1 && t >= 1
    ensures d * t >= d
  {
  }

  /** AND with `n` one-bits keeps every value below `2^n`. */
  lemma {:induction false} BitAndAllOnes(x: nat, n: nat)
    requires x < Pow2(n)
    ensures BitAnd(x, Pow2(n) - 1) == x
    decreases n
  {
    if n > 0 && x != 0 {
      assert (Pow2(n) - 1) / 2 == Pow2(n - 1) - 1;
      assert (Pow2(n) - 1) % 2 == 1;
      BitAndAllOnes(x / 2, n - 1);
    }
  }

  /** Clearing the `k` low bits of an `n`-bit value rounds it down to a
      multiple of `2^k`: the C idiom `x & ~(p - 1)` for `p == 2^k`. */
  lemma {:induction false} ClearLowBits(x: nat, k: nat, n: nat)
    requires k <= n && x < Pow2(n) && Pow2(k) <= Pow2(n)
    ensures BitAnd(x, Pow2(n) - Pow2(k)) == x - x % Pow2(k)
    decreases k
  {
    if k == 0 {
      BitAndAllOnes(x, n);
    } else if Pow2(n) == Pow2(k) {
      DivModUnique(x, Pow2(k), 0, x);
    } else if x != 0 {
      Pow2Monotone(k - 1, n - 1);
      ClearLowBits(x / 2, k - 1, n - 1);
      ClearLowBitsStep(x, k, n);
    }
  }

  /** One induction step of ClearLowBits: the lowest bit of the mask is clear. */
  lemma ClearLowBitsStep(x: nat, k: nat, n: nat)
    requires 1 <= k <= n && x < Pow2(n) && Pow2(k) < Pow2(n)
    requires BitAnd(x / 2, Pow2(n - 1) - Pow2(k - 1)) == x / 2 - (x / 2) % Pow2(k - 1)
    ensures BitAnd(x, Pow2(n) - Pow2(k)) == x - x % Pow2(k)
  {
    var hi, lo := Pow2(n - 1), Pow2(k - 1);
    var m := Pow2(n) - Pow2(k);
    assert m == 2 * (hi - lo);
    var h := x / 2;
    assert x == 2 * h + x % 2;
    assert m / 2 == hi - lo && m % 2 == 0;
    assert BitAnd(x, m) == 2 * (h - h % lo);
    ModDouble(x, lo);
  }
}
