/** Order facts about products and quotients of reals, stated for one pair at a time. */
module RealArith {
  lemma ProductIsPositive(c: real, y: real)
    requires c > 0.0 && y > 0.0
    ensures c * y > 0.0
  {
  }

  lemma ProductSign(x: real, y: real)
    requires x >= 0.0 && y >= 0.0
    ensures x * y >= 0.0
  {
  }

  lemma FactorSign(c: real, x: real)
    requires c > 0.0
    ensures c * x > 0.0 <==> x > 0.0
    ensures c * x < 0.0 <==> x < 0.0
  {
    if x > 0.0 {
      ProductIsPositive(c, x);
    } else if x < 0.0 {
      var y := -x;
      ProductIsPositive(c, y);
      assert c * x == -(c * y);
    } else {
      assert x == 0.0 && c * x == 0.0;
    }
  }

  lemma ProductOrder(c: real, x: real, y: real)
    requires c > 0.0
    ensures c * x > c * y <==> x > y
    ensures c * x < c * y <==> x < y
  {
    var d := x - y;
    assert c * x == c * y + c * d;
    FactorSign(c, d);
  }

  function Abs(x: real): real { if x < 0.0 then -x else x }

  function Square(x: real): real { x * x }

  lemma ProductValue(c: real, y: real, m: real)
    requires c > 0.0 && y > 0.0 && m == c * y
    ensures m > 0.0
  {
  }

  lemma SquareSign(x: real)
    ensures Square(x) >= 0.0
    ensures x != 0.0 ==> Square(x) > 0.0
    ensures Square(-x) == Square(x)
  {
    if x > 0.0 {
      ProductValue(x, x, Square(x));
    } else if x < 0.0 {
      ProductValue(-x, -x, Square(x));
    }
  }

  lemma SquareCompare(x: real, y: real)
    requires x >= 0.0 && y >= 0.0
    ensures x > y <==> Square(x) > Square(y)
  {
    var d, e := x - y, x + y;
    assert Square(x) - Square(y) == d * e;
    if x > y {
      ProductIsPositive(d, e);
    } else {
      var f := -d;
      ProductSign(f, e);
      assert f * e == -(d * e);
    }
  }

  function Ratio(x: real, y: real): (q: real)
    requires y > 0.0
    ensures q * y == x
  {
    x / y
  }

  lemma Quotient(x: real, y: real)
    requires y > 0.0
    ensures Ratio(x, y) * y == x
    ensures x > 0.0 <==> Ratio(x, y) > 0.0
    ensures x < 0.0 <==> Ratio(x, y) < 0.0
    ensures x > y <==> Ratio(x, y) > 1.0
    ensures x < y <==> Ratio(x, y) < 1.0
  {
    QuotientCompare(x, y, Ratio(x, y));
  }

  lemma QuotientCompare(x: real, y: real, q: real)
    requires y > 0.0 && q * y == x
    ensures x > 0.0 <==> q > 0.0
    ensures x < 0.0 <==> q < 0.0
    ensures x > y <==> q > 1.0
    ensures x < y <==> q < 1.0
  {
    var d := q - 1.0;
    FactorSign(y, q);
    FactorSign(y, d);
    assert y * d == x - y;
  }

  /** A quotient is fixed by the product that it undoes. */
  lemma QuotientIsUnique(x: real, y: real, q: real)
    requires y > 0.0 && q * y == x
    ensures Ratio(x, y) == q
  {
    var p := Ratio(x, y);
    assert p * y == x;
    ProductOrder(y, p, q);
  }

  lemma QuotientScales(c: real, x: real, x': real, y: real, y': real)
    requires c > 0.0 && y > 0.0 && x' == c * x && y' == c * y
    ensures y' > 0.0 && Ratio(x', y') == Ratio(x, y)
  {
    ProductValue(c, y, y');
    var q := Ratio(x, y);
    assert x == q * y;
    assert x' == q * y' by { assert c * (q * y) == q * (c * y); }
    QuotientIsUnique(x', y', q);
  }

  lemma QuotientOrder(x: real, x': real, y: real)
    requires y > 0.0 && x <= x'
    ensures Ratio(x, y) <= Ratio(x', y)
  {
    var q, q' := Ratio(x, y), Ratio(x', y);
    assert q * y == x && q' * y == x';
    ProductOrder(y, q, q');
  }
}
