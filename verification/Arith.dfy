/** The little integer arithmetic that the wrap-around and the block count need. */
module Arith {
  lemma NonzeroMultiple(m: int, d: int)
    requires m > 0
    ensures d >= 1 ==> m * d >= m
    ensures d <= -1 ==> m * d <= -m
  {
    if d >= 1 {
      assert m * (d - 1) >= 0;
    } else if d <= -1 {
      assert m * (-1 - d) >= 0;
    }
  }

  lemma AddDivisor(n: nat, m: nat)
    requires m > 0
    ensures (n + m) % m == n % m && (n + m) / m == n / m + 1
  {
    var d := (n + m) / m - (n / m + 1);
    assert m * d == n % m - (n + m) % m;
    NonzeroMultiple(m, d);
  }

  function CeilDiv(a: nat, m: nat): nat
    requires m > 0
  {
    (a + m - 1) / m
  }

  lemma CeilDivStep(a: nat, m: nat)
    requires m > 0
    ensures a > m ==> CeilDiv(a, m) == 1 + CeilDiv(a - m, m)
    ensures 0 < a <= m ==> CeilDiv(a, m) == 1
    ensures CeilDiv(0, m) == 0
  {
    if a > m {
      AddDivisor(a - 1, m);
    } else if a > 0 {
      AddDivisor(a - 1, m);
      assert (a - 1) / m == 0;
    }
  }
}
