/** The little nonlinear arithmetic the models need. */
module Arith {
  lemma MulLe(a: int, b: int, w: int)
    requires a <= b && 0 <= w
    ensures a * w <= b * w
  {
  }

  lemma MulLt(a: int, b: int, w: int)
    requires a < b && 0 < w
    ensures a * w < b * w
    ensures a * w + w <= b * w
  {
    assert (a + 1) * w == a * w + w;
    MulLe(a + 1, b, w);
  }

  lemma MulCancel(a: int, b: int, w: int)
    requires a * w < b * w && 0 < w
    ensures a < b
  {
    if b <= a {
      MulLe(b, a, w);
    }
  }

  /** Quotient and remainder are determined by p == q * w + m with m below w. */
  lemma DivMod(q: int, m: int, w: int, p: int)
    requires 0 <= m < w && p == q * w + m
    ensures p / w == q && p % w == m
  {
    var d, r := p / w, p % w;
    assert p == d * w + r && 0 <= r < w;
    if d < q {
      MulLt(d, q, w);
    } else if q < d {
      MulLt(q, d, w);
    }
  }

  /** Floor division: the quotient is the largest q with q * w <= p. */
  lemma DivBounds(p: int, w: int)
    requires 0 < w
    ensures (p / w) * w <= p < (p / w) * w + w
  {
  }

  lemma DivGe(p: int, w: int, q: int)
    requires 0 < w && q * w <= p
    ensures q <= p / w
  {
    DivBounds(p, w);
    if p / w < q {
      MulLt(p / w, q, w);
    }
  }

  lemma DivLt(p: int, w: int, q: int)
    requires 0 < w && p < q * w
    ensures p / w < q
  {
    DivBounds(p, w);
    if q <= p / w {
      MulLe(q, p / w, w);
    }
  }

  lemma DivMono(a: int, b: int, w: int)
    requires a <= b && 0 < w
    ensures a / w <= b / w
  {
    DivBounds(a, w);
    DivGe(b, w, a / w);
  }
}
