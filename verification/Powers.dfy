/** Powers of whole numbers. */
module Powers {
  function Power(b: nat, n: nat): nat {
    if n == 0 then 1 else b * Power(b, n - 1)
  }

  lemma {:induction false} PowerIsPositive(b: nat, n: nat)
    requires b > 0
    ensures Power(b, n) > 0
  {
    if n > 0 {
      PowerIsPositive(b, n - 1);
    }
  }

  /** A power is at most half of any later one. */
  lemma {:induction false} PowerGrows(b: nat, m: nat, n: nat)
    requires b >= 2 && m < n
    ensures 2 * Power(b, m) <= Power(b, n)
  {
    PowerIsPositive(b, n - 1);
    AtLeastDoubles(b, Power(b, n - 1));
    if m + 1 < n {
      PowerGrows(b, m, n - 1);
    }
  }

  lemma AtLeastDoubles(b: nat, p: nat)
    requires b >= 2
    ensures b * p >= 2 * p
  {
  }

  /** Four binary digits hold at least one decimal digit. */
  lemma {:induction false} TenAgainstTwo(n: nat)
    ensures Power(10, n) <= Power(2, 4 * n)
  {
    if n > 0 {
      TenAgainstTwo(n - 1);
      var k := 4 * (n - 1);
      assert Power(2, k + 4) == 2 * Power(2, k + 3) && Power(2, k + 3) == 2 * Power(2, k + 2);
      assert Power(2, k + 2) == 2 * Power(2, k + 1) && Power(2, k + 1) == 2 * Power(2, k);
      assert Power(10, n) == 10 * Power(10, n - 1);
    }
  }

  lemma {:induction false} PowerAdds(b: nat, m: nat, n: nat)
    ensures Power(b, m + n) == Power(b, m) * Power(b, n)
  {
    if m > 0 {
      PowerAdds(b, m - 1, n);
      assert Power(b, m + n) == b * Power(b, m - 1 + n);
    }
  }
}
