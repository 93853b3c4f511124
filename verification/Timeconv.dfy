// Nanoseconds and the microseconds the database stores (api/src/tabayyun/services/timeconv.py).
module Timeconv {
  // Rounded down to the microsecond.
  function Floor(ns: int): int {
    ns / 1000
  }

  // Rounded up to the microsecond.
  function Ceiling(ns: int): int {
    -(-ns / 1000)
  }

  function ToNs(micros: int): int {
    micros * 1000
  }

  // A whole number of microseconds.
  predicate Aligned(ns: int) {
    ToNs(Floor(ns)) == ns
  }

  lemma RoundingBracket(ns: int)
    ensures ToNs(Floor(ns)) <= ns < ToNs(Floor(ns)) + 1000
    ensures ToNs(Ceiling(ns)) - 1000 < ns <= ToNs(Ceiling(ns))
    ensures Aligned(ns) <==> ToNs(Ceiling(ns)) == ns
  {
  }

  lemma WholeIsAligned(micros: int)
    ensures Floor(ToNs(micros)) == micros && Aligned(ToNs(micros))
  {
  }

  lemma AlignedSum(a: int, b: int)
    requires Aligned(a) && Aligned(b)
    ensures Aligned(a + b) && Aligned(a - b)
  {
    WholeIsAligned(Floor(a) + Floor(b));
    WholeIsAligned(Floor(a) - Floor(b));
  }

  // Rounding up keeps the order, so nothing passes a whole microsecond.
  lemma CeilingAtMost(a: int, b: int)
    requires a <= b && Aligned(b)
    ensures ToNs(Ceiling(a)) <= b
  {
    RoundingBracket(a);
    assert ToNs(Ceiling(a)) - 1000 < b && b == ToNs(Floor(b));
  }
}
