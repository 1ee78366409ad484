/** The C integer types the program uses, and the checked arithmetic of `<stdckdint.h>`. */
module Machine {
  const UINT64_MAX: int := 0xFFFF_FFFF_FFFF_FFFF
  const INT_MAX: int := 0x7FFF_FFFF

  type byte = x: int | 0 <= x < 0x100
  type uint16 = x: int | 0 <= x < 0x1_0000
  type uint32 = x: int | 0 <= x < 0x1_0000_0000
  type uint64 = x: int | 0 <= x < 0x1_0000_0000_0000_0000
  type int32 = x: int | -0x8000_0000 <= x < 0x8000_0000

  datatype Option<+T> = None | Some(value: T)

  /** The C conversion `(uint64_t)x`. */
  function AsUint64(x: int32): uint64 {
    if x < 0 then x + 0x1_0000_0000_0000_0000 else x
  }

  /** `ckd_add`, with overflow mapped to the sentinel UINT64_MAX. */
  function SaturatingAdd(a: uint64, b: uint64): uint64 {
    if a + b > UINT64_MAX then UINT64_MAX else a + b
  }

  /** `ckd_mul`, with overflow mapped to the sentinel UINT64_MAX. */
  function SaturatingMul(a: uint64, b: uint64): uint64 {
    var product: int := (a as int) * (b as int);
    assert product >= 0 by { MulMonotone(0, a, b); }
    if product > UINT64_MAX then UINT64_MAX else product
  }

  /** Unsigned subtraction modulo 2^64. */
  function WrappingSub(a: uint64, b: uint64): uint64 {
    if a >= b then a - b else a - b + 0x1_0000_0000_0000_0000
  }

  function Min(a: int, b: int): int { if b < a then b else a }

  /** One more step of length `d` on an arithmetic grid. */
  lemma MulSucc(k: int, d: int)
    ensures (k + 1) * d == k * d + d
  {}

  lemma MulMonotone(a: int, b: int, d: int)
    requires a <= b && 0 <= d
    ensures a * d <= b * d
  {}

  /** Quotient and remainder are unique. */
  lemma DivMod(a: nat, n: nat, q: nat, r: nat)
    requires 0 < n && r < n && a == q * n + r
    ensures a / n == q && a % n == r
  {
    var q', r' := a / n, a % n;
    assert a == q' * n + r';
    assert (q' - q) * n == r - r';
    if q' > q { MulMonotone(1, q' - q, n); }
    if q' < q { MulMonotone(q' - q, -1, n); }
  }
}
