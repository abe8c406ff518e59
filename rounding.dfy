/** The integer percentages the home page shows, `Math.round(count / total * 100)`.

    For a non-negative count, Math.round rounds to the nearest integer and
    rounds halves up; here that is computed in exact integer arithmetic. */
module Rounding {

  /** `p` is 100 * count / total rounded to the nearest integer, halves up:
      p - 1/2 <= 100 * count / total < p + 1/2. */
  predicate IsRoundedPercent(count: nat, total: nat, p: int)
  {
    (2 * p - 1) * total <= 200 * count < (2 * p + 1) * total
  }

  /** Math.round(count / total * 100), computed as (200 * count + total) / (2 * total). */
  function RoundedPercent(count: nat, total: nat): (p: nat)
    requires total > 0
    ensures IsRoundedPercent(count, total, p)
    ensures count <= total ==> p <= 100
  {
    QuotientRounds(count, total);
    (200 * count + total) / (2 * total)
  }

  /** The quotient behind RoundedPercent rounds correctly and stays within
      100 when the count is at most the total. */
  lemma QuotientRounds(count: nat, total: nat)
    requires total > 0
    ensures IsRoundedPercent(count, total, (200 * count + total) / (2 * total))
    ensures count <= total ==> (200 * count + total) / (2 * total) <= 100
  {
    var n, d := 200 * count + total, 2 * total;
    var q := n / d;
    var r := n % d;
    assert n == d * q + r && 0 <= r < d;
    Distribute(2 * q, -1, total);
    Distribute(2 * q, 1, total);
    assert d * q == (2 * q) * total;
    if count <= total {
      assert d * q < d * 101;
      CancelFactor(q, 101, d);
    }
  }

  lemma Distribute(a: int, b: int, t: int)
    ensures (a + b) * t == a * t + b * t
  {
  }

  /** A positive factor can be cancelled from a strict inequality. */
  lemma CancelFactor(a: int, b: int, t: int)
    requires t > 0 && a * t < b * t
    ensures a < b
  {
  }

  /** A positive factor can be cancelled from an inequality. */
  lemma CancelFactorAtMost(a: int, b: int, t: int)
    requires t > 0 && a * t <= b * t
    ensures a <= b
  {
  }

  /** The rounding condition determines the percentage: no other integer
      satisfies it. */
  lemma {:induction false} RoundedPercentUnique(count: nat, total: nat, p: int)
    requires total > 0
    requires IsRoundedPercent(count, total, p)
    ensures p == RoundedPercent(count, total)
  {
    var q: int := RoundedPercent(count, total);
    CancelFactor(2 * p - 1, 2 * q + 1, total);
    CancelFactor(2 * q - 1, 2 * p + 1, total);
  }
}
