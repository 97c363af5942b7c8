/** Shared vocabulary: optional values, bytes, and the fixed-width integer
    conversions and operators of Rust that the wrapper's size arithmetic uses. */
module Common {

  datatype Option<T> = None | Some(value: T)

  /** One byte of a host or GPU buffer (`u8`). */
  newtype byte = x: int | 0 <= x < 256

  const I32_MIN: int := -0x8000_0000
  const I32_MAX: int := 0x7fff_ffff
  const TWO_TO_32: int := 0x1_0000_0000
  const TWO_TO_64: int := 0x1_0000_0000_0000_0000

  /** Values of Rust's `i32`. */
  type i32 = x: int | I32_MIN <= x <= I32_MAX

  /** Rust's `%` with a positive divisor: the remainder is truncated toward
      zero, so it takes the sign of the dividend (Dafny's `%` is Euclidean). */
  function Rem(a: int, m: int): (r: int)
    requires m > 0
    ensures -m < r < m
    ensures r != 0 ==> (r < 0 <==> a < 0)
    ensures a >= 0 ==> r == a % m
  {
    if a >= 0 then a % m else -((-a) % m)
  }

  /** The dividend is a whole multiple of the divisor plus the remainder, so
      with the range and sign above the remainder is fully determined. */
  lemma RemQuotient(a: int, m: int)
    requires m > 0
    ensures exists q :: a == q * m + Rem(a, m)
  {
    if a >= 0 {
      assert a == (a / m) * m + a % m;
    } else {
      var q := (-a) / m;
      assert -a == q * m + (-a) % m;
      assert a == (-q) * m + Rem(a, m);
    }
  }

  /** Two's-complement wrap-around into `i32`: what `x as i32` does to a
      `usize`, and what `+` and `*` on `i32` do in a release build. */
  function WrapI32(x: int): (r: i32)
    ensures (x - r) % TWO_TO_32 == 0
    ensures I32_MIN <= x <= I32_MAX ==> r == x
  {
    (x - I32_MIN) % TWO_TO_32 + I32_MIN
  }

  /** `v as u32` for an `i32` value: its bits read as unsigned. */
  function AsU32(v: int): (r: nat)
    ensures r < TWO_TO_32
    ensures (v - r) % TWO_TO_32 == 0
    ensures 0 <= v < TWO_TO_32 ==> r == v
  {
    v % TWO_TO_32
  }

  /** `v as u64` for an `i32` value: sign extension, then read as unsigned. */
  function AsU64(v: int): (r: nat)
    ensures r < TWO_TO_64
    ensures (v - r) % TWO_TO_64 == 0
    ensures 0 <= v < TWO_TO_64 ==> r == v
  {
    v % TWO_TO_64
  }
}
