// 64-bit signed arithmetic as the core uses it: values are unbounded integers here, and every
// operation that saturates or wraps in the source is written out.
module Int64 {
  const MIN: int := -0x8000_0000_0000_0000
  const MAX: int := 0x7fff_ffff_ffff_ffff

  predicate InRange(x: int) {
    MIN <= x <= MAX
  }

  function Min(a: int, b: int): int {
    if a <= b then a else b
  }

  function Max(a: int, b: int): int {
    if a >= b then a else b
  }

  // The result of a saturating operation whose exact value is x.
  function Sat(x: int): int {
    Max(MIN, Min(MAX, x))
  }

  function SatAdd(a: int, b: int): int {
    Sat(a + b)
  }

  function SatSub(a: int, b: int): int {
    Sat(a - b)
  }

  function SatMul(a: int, b: int): int {
    Sat(a * b)
  }
}
