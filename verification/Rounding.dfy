/** Rounding to a whole number, half away from zero, as Go's math.Round does on exact values. */
module Rounding {
  function Rounded(x: real): int {
    if x >= 0.0 then (x + 0.5).Floor else -((0.5 - x).Floor)
  }

  /** Nothing whole is nearer, and a half goes away from zero. */
  lemma RoundedIsNearest(x: real)
    ensures Rounded(x) as real - 0.5 <= x <= Rounded(x) as real + 0.5
    ensures x >= 0.0 ==> x < Rounded(x) as real + 0.5
    ensures x < 0.0 ==> x > Rounded(x) as real - 0.5
  {
  }

  /** Rounding stays between whole bounds. */
  lemma RoundedBetween(x: real, lo: int, hi: int)
    requires 0 <= lo && lo as real <= x <= hi as real
    ensures lo <= Rounded(x) <= hi
  {
  }

  lemma RoundedKeepsOrder(x: real, y: real)
    requires 0.0 <= x <= y
    ensures 0 <= Rounded(x) <= Rounded(y)
  {
  }

  lemma RoundedWhole(n: int)
    requires n >= 0
    ensures Rounded(n as real) == n
  {
  }
}
