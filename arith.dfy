/** `Math.min`, `Math.max` and the "part / whole * 100" percentage the scorer computes twice. */
module Arith {

  function Min(x: int, y: int): int
  {
    if x <= y then x else y
  }

  function Max(x: int, y: int): int
  {
    if x >= y then x else y
  }

  /** `(part / whole) * 100`, in exact rational arithmetic. */
  function Percentage(part: int, whole: int): real
    requires whole > 0
  {
    (part as real / whole as real) * 100.0
  }

  /** A non-negative part gives a non-negative percentage, positive exactly when the part is. */
  lemma PercentageSign(part: nat, whole: int)
    requires whole > 0
    ensures Percentage(part, whole) >= 0.0
    ensures Percentage(part, whole) > 0.0 <==> part > 0
  {
    if part > 0 {
      assert part as real / whole as real > 0.0;
    }
  }

  /** A part no larger than the whole gives at most 100, and exactly 100 when they are equal. */
  lemma PercentageAtMostHundred(part: nat, whole: int)
    requires 0 < whole && part <= whole
    ensures Percentage(part, whole) <= 100.0
    ensures Percentage(part, whole) == 100.0 <==> part == whole
  {
    assert part as real / whole as real <= 1.0;
    if Percentage(part, whole) == 100.0 {
      assert part as real / whole as real == 1.0;
    }
  }
}
