/** The little non-linear arithmetic the other modules share. */
module Arith {
  lemma MulGap(d: int, a: int, b: int)
    requires d > 0 && a > b
    ensures d * a >= d * b + d
  {
    var k := a - b - 1;
    assert d * k >= 0;
    assert d * a == d * b + d * k + d;
  }

  lemma DivModUnique(d: int, q: int, r: int)
    requires 0 <= r < d
    ensures (d * q + r) / d == q && (d * q + r) % d == r
  {
    var q1 := (d * q + r) / d;
    if q > q1 {
      MulGap(d, q, q1);
    } else if q < q1 {
      MulGap(d, q1, q);
    }
  }
}
