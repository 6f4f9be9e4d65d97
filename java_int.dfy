/** Java's integer division and remainder on `int`, which round toward zero
    (Dafny's own `/` and `%` are Euclidean). Used wherever the modelled code
    divides or takes a remainder. Java's 32-bit wrap-around is not modelled. */
module JavaInt {

  /** Java `a / b`: the quotient truncated toward zero. */
  function Div(a: int, b: int): (q: int)
    requires b != 0
    ensures (a >= 0) == (b > 0) ==> q >= 0
    ensures (a >= 0) != (b > 0) ==> q <= 0
  {
    if a >= 0 then (if b > 0 then a / b else -(a / -b))
    else (if b > 0 then -((-a) / b) else (-a) / (-b))
  }

  /** Java `a % b`: the remainder that goes with `Div`; it has the sign of
      `a` and is smaller than `b` in magnitude. */
  function Rem(a: int, b: int): (r: int)
    requires b != 0
    ensures a >= 0 ==> 0 <= r < if b > 0 then b else -b
    ensures a < 0 ==> 0 >= r > if b > 0 then -b else b
  {
    var m := if b > 0 then b else -b;
    if a >= 0 then a % m else -((-a) % m)
  }

  /** On a non-negative dividend and a positive divisor Java and Dafny
      agree. */
  lemma NonNegativeDivRem(a: int, b: int)
    requires a >= 0 && b > 0
    ensures Div(a, b) == a / b && Rem(a, b) == a % b
  {
  }

  /** Java's quotient and remainder fit together: `(a / b) * b + a % b == a`. */
  lemma DivRem(a: int, b: int)
    requires b != 0
    ensures Div(a, b) * b + Rem(a, b) == a
  {
    var m := if b > 0 then b else -b;
    var n := if a >= 0 then a else -a;
    var q, r := n / m, n % m;
    assert n == q * m + r;
    MulNeg(q, m);
    if a >= 0 && b > 0 {
      assert Div(a, b) == q && Rem(a, b) == r;
    } else if a >= 0 {
      assert Div(a, b) == -q && Rem(a, b) == r && b == -m;
      assert Div(a, b) * b == q * m;
    } else if b > 0 {
      assert Div(a, b) == -q && Rem(a, b) == -r && b == m;
      assert Div(a, b) * b == -(q * m);
    } else {
      assert Div(a, b) == q && Rem(a, b) == -r && b == -m;
      assert Div(a, b) * b == -(q * m);
    }
  }

  /** Signs move out of a product. */
  lemma MulNeg(x: int, y: int)
    ensures (-x) * y == -(x * y) && x * (-y) == -(x * y) && (-x) * (-y) == x * y
  {
  }

  lemma MulAtLeast(d: int, b: int)
    requires d >= 1 && b > 0
    ensures d * b >= b
  {
    assert d * b == b + (d - 1) * b;
  }

  lemma MulAtMost(d: int, b: int)
    requires d <= -1 && b > 0
    ensures d * b <= -b
  {
    assert d * b == -b + (d + 1) * b;
  }

  /** Euclidean division is unique: a quotient and an in-range remainder
      that rebuild `n` are the quotient and remainder of `n`. */
  lemma DivModOf(n: int, b: int, q: int, r: int)
    requires b > 0 && 0 <= r < b && n == q * b + r
    ensures n / b == q && n % b == r
  {
    var q0, r0 := n / b, n % b;
    assert n == q0 * b + r0;
    var d := q0 - q;
    assert d * b == r - r0 by {
      assert d * b == q0 * b - q * b;
    }
    if d > 0 {
      MulAtLeast(d, b);
    } else if d < 0 {
      MulAtMost(d, b);
    }
  }

  /** The rotation `(n + x + 1) % n` used for every pointer in the turn order
      is the plain successor modulo `n` while the pointer is in range. */
  lemma RotateInRange(x: int, n: int)
    requires 0 <= x < n
    ensures Rem(n + x + 1, n) == (x + 1) % n
    ensures Rem(n + x + 1, n) == if x + 1 == n then 0 else x + 1
  {
    var s := n + x + 1;
    NonNegativeDivRem(s, n);
    if x + 1 == n {
      DivModOf(s, n, 2, 0);
      DivModOf(x + 1, n, 1, 0);
    } else {
      DivModOf(s, n, 1, x + 1);
      DivModOf(x + 1, n, 0, x + 1);
    }
  }
}
