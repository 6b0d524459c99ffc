/** Order facts about products and quotients of reals. */
module RealArith {
  lemma MulNonNegative(x: real, y: real)
    requires x >= 0.0 && y >= 0.0
    ensures x * y >= 0.0
  {
  }

  lemma MulPositive(x: real, y: real)
    requires x > 0.0 && y > 0.0
    ensures x * y > 0.0
  {
  }

  lemma CancelPositive(x: real, y: real, d: real)
    requires d > 0.0 && x * d <= y * d
    ensures x <= y
  {
    if x > y {
      MulPositive(x - y, d);
    }
  }

  lemma ScaleMonotone(w: real, x: real, y: real)
    requires w >= 0.0 && x <= y
    ensures w * x <= w * y
  {
    MulNonNegative(w, y - x);
  }

  lemma ProductOrder(x: real, y: real, d: real)
    requires d > 0.0
    ensures x >= y <==> x * d >= y * d
    ensures x * d == d * x && y * d == d * y
  {
    if x >= y {
      MulNonNegative(x - y, d);
    } else {
      MulPositive(y - x, d);
      assert (y - x) * d == y * d - x * d;
    }
  }

  lemma DivideMonotone(x: real, y: real, d: real)
    requires d > 0.0 && x <= y
    ensures x / d <= y / d
  {
    assert x / d * d == x && y / d * d == y;
    CancelPositive(x / d, y / d, d);
  }

  lemma QuotientIs(q: real, x: real, d: real)
    requires d > 0.0 && q * d == x
    ensures x / d == q
  {
    assert x / d * d == x;
    CancelPositive(x / d, q, d);
    CancelPositive(q, x / d, d);
  }

  lemma FlipSigns(x: real, d: real)
    requires d < 0.0
    ensures x / d == (-x) / (-d)
  {
    var q := x / d;
    assert q * d == x;
    assert q * (-d) == -(q * d);
    QuotientIs(q, -x, -d);
  }
}
