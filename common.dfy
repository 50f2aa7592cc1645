/** Small value types shared by every component of the engine model. */
module Common {

  datatype Option<+T> = None | Some(value: T)

  /** An opaque stand-in for a JavaScript callback: the model records which
      callbacks are registered, never what invoking one does. */
  datatype Callback = Callback(token: nat)

  /** A two-dimensional vector `{ x, y }`. */
  datatype Vec = Vec(x: real, y: real)

  /** Math.min and Math.max on (non-NaN) numbers. */
  function Min(a: real, b: real): (r: real)
    ensures r <= a && r <= b && (r == a || r == b)
  {
    if a <= b then a else b
  }

  function Max(a: real, b: real): (r: real)
    ensures r >= a && r >= b && (r == a || r == b)
  {
    if a >= b then a else b
  }

  function Abs(a: real): (r: real)
    ensures r >= 0.0 && (r == a || r == -a)
  {
    if a < 0.0 then -a else a
  }

  /** A non-zero square is positive. */
  lemma SquarePositive(a: real)
    requires a != 0.0
    ensures a * a > 0.0
  {
  }

  /** Only zero squares to zero. */
  lemma SquareZero(a: real)
    requires a * a == 0.0
    ensures a == 0.0
  {
    if a != 0.0 {
      DivMulCancel(a, a);
      ZeroDiv(a);
    }
  }

  lemma DivMulCancel(a: real, b: real)
    requires b != 0.0
    ensures (a * b) / b == a
  {
  }

  lemma ZeroDiv(b: real)
    requires b != 0.0
    ensures 0.0 / b == 0.0
  {
  }

  lemma SquareNonNegative(a: real)
    ensures a * a >= 0.0
  {
    if a != 0.0 { SquarePositive(a); }
  }

  /** The squared length dx*dx + dy*dy of an offset. */
  function SqNorm(dx: real, dy: real): real
  {
    dx * dx + dy * dy
  }

  /** A product with a zero factor vanishes. */
  lemma MulZero(x: real, y: real)
    requires x == 0.0
    ensures x * y == 0.0
  {
  }

  /** String.prototype.startsWith. */
  predicate StartsWith(s: string, prefix: string)
  {
    |prefix| <= |s| && s[..|prefix|] == prefix
  }

  /** JavaScript's `%` on numbers: the remainder of the division truncated
      toward zero, so the result takes the sign of the dividend. */
  function JsRem(a: real, m: real): (r: real)
    requires m > 0.0
  {
    if a >= 0.0 then FloorRem(a, m) else -FloorRem(-a, m)
  }

  /** The remainder of the division floored toward minus infinity. */
  function FloorRem(b: real, m: real): real
    requires m > 0.0
  {
    b - ((b / m).Floor as real) * m
  }

  lemma FloorBounds(q: real)
    ensures (q.Floor as real) <= q < (q.Floor as real) + 1.0
  {
  }

  lemma MulMonotone(x: real, y: real, m: real)
    requires x <= y && m > 0.0
    ensures x * m <= y * m
    ensures x < y ==> x * m < y * m
  {
  }

  lemma FloorRemBounds(b: real, m: real)
    requires m > 0.0
    ensures 0.0 <= FloorRem(b, m) < m
  {
    var q := b / m;
    FloorBounds(q);
    var f := q.Floor as real;
    MulMonotone(f, q, m);
    MulMonotone(q, f + 1.0, m);
    var fm, qm := f * m, q * m;
    assert qm == b;
    assert (f + 1.0) * m == fm + m;
    assert q < f + 1.0;
    assert q * m < (f + 1.0) * m;
    assert b < (f + 1.0) * m;
    assert fm <= b < fm + m;
    assert FloorRem(b, m) == b - fm;
  }

  /** The truncated remainder has magnitude below the modulus and never has
      the opposite sign of the dividend. */
  lemma JsRemBounds(a: real, m: real)
    requires m > 0.0
    ensures -m < JsRem(a, m) < m
    ensures a >= 0.0 ==> JsRem(a, m) >= 0.0
    ensures a <= 0.0 ==> JsRem(a, m) <= 0.0
  {
    if a >= 0.0 { FloorRemBounds(a, m); } else { FloorRemBounds(-a, m); }
  }

  /** A non-negative dividend below the modulus is its own remainder. */
  lemma JsRemOfSmall(a: real, m: real)
    requires m > 0.0 && 0.0 <= a < m
    ensures JsRem(a, m) == a
  {
    assert (a / m) * m == a;
    if a / m >= 1.0 { MulMonotone(1.0, a / m, m); }
    FloorBounds(a / m);
    assert (a / m).Floor == 0;
  }

  lemma {:induction false} MulAtLeast(k: int, n: int)
    requires k >= 1 && n > 0
    ensures k * n >= n
  {
    if k > 1 {
      MulAtLeast(k - 1, n);
      assert k * n == (k - 1) * n + n;
    }
  }

  /** The remainder is determined by any quotient-remainder split. */
  lemma ModUnique(a: int, n: int, q: int, r: int)
    requires n > 0 && 0 <= r < n && a == q * n + r
    ensures a % n == r
  {
    var q', r' := a / n, a % n;
    assert q' * n + r' == a;
    var d := q - q';
    assert d * n == r' - r;
    if d >= 1 {
      MulAtLeast(d, n);
      assert false;
    } else if d <= -1 {
      MulAtLeast(-d, n);
      assert false;
    }
  }

  /** Stepping one past a remainder either moves to the next residue or
      wraps to 0. */
  lemma ModStep(a: nat, n: nat)
    requires n > 0
    ensures a % n + 1 < n ==> (a + 1) % n == a % n + 1
    ensures a % n + 1 >= n ==> (a + 1) % n == 0
  {
    var q, r := a / n, a % n;
    assert a == q * n + r;
    if r + 1 < n {
      ModUnique(a + 1, n, q, r + 1);
    } else {
      assert a + 1 == (q + 1) * n + 0;
      ModUnique(a + 1, n, q + 1, 0);
    }
  }
}
