/** Fixed-width integer types, powers, and when a quotient is exceeded. */
module Arithmetic {
  /** A signed type has the range -half .. half - 1, an unsigned one 0 .. 2 * half - 1. */
  datatype IntType = IntType(signed: bool, half: nat)

  function Max(t: IntType): int { if t.signed then t.half - 1 else 2 * t.half - 1 }

  function Min(t: IntType): int { if t.signed then 0 - t.half else 0 }

  predicate InRange(x: int, t: IntType) { Min(t) <= x <= Max(t) }

  function Power(base: nat, n: nat): nat {
    if n == 0 then 1 else base * Power(base, n - 1)
  }

  lemma DivisionBound(limit: nat, a: nat, b: nat)
    requires a > 0
    ensures limit / a < b <==> limit < a * b
  {
    var q, r := limit / a, limit % a;
    assert limit == a * q + r && r < a;
    if q < b {
      assert a * (q + 1) <= a * b;
    } else {
      assert a * b <= a * q;
    }
  }
}
