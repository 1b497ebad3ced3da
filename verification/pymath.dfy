/** Python's numeric conversions that differ from Dafny's. */
module PyMath {

  /** Python `int(x)` of a float: truncation toward zero. */
  function Trunc(x: real): (r: int)
    ensures 0.0 <= x ==> r as real <= x < r as real + 1.0
    ensures x < 0.0 ==> r as real - 1.0 < x <= r as real
  {
    if x >= 0.0 then x.Floor else -((-x).Floor)
  }

  lemma TruncMono(x: real, y: real)
    requires x <= y
    ensures Trunc(x) <= Trunc(y)
  {
  }

  /** Truncation grows by at most one when its argument does. */
  lemma TruncStep(x: real)
    ensures Trunc(x + 1.0) <= Trunc(x) + 1
  {
  }

  /** Python's `%` on floats with a positive divisor (floor modulo). */
  function PyMod(x: real, m: real): (r: real)
    requires m > 0.0
    ensures 0.0 <= r < m
  {
    FloorMulBounds(x, m);
    x - (x / m).Floor as real * m
  }

  lemma FloorMulBounds(x: real, m: real)
    requires m > 0.0
    ensures (x / m).Floor as real * m <= x < (x / m).Floor as real * m + m
  {
    var y := x / m;
    var q := y.Floor as real;
    assert q <= y < q + 1.0;
    assert y * m == x;
    MulLe(q, y, m);
    MulLt(y, q + 1.0, m);
    assert (q + 1.0) * m == q * m + m;
    assert y * m < (q + 1.0) * m;
    assert x < q * m + m;
  }

  lemma MulLe(a: real, b: real, m: real)
    requires m > 0.0 && a <= b
    ensures a * m <= b * m
  {
  }

  lemma MulLt(a: real, b: real, m: real)
    requires m > 0.0 && a < b
    ensures a * m < b * m
  {
  }

  function Abs(x: real): real {
    if x < 0.0 then -x else x
  }

  function Min(a: real, b: real): real {
    if a <= b then a else b
  }
}
