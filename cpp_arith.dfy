/** The integer operators of C++: `/` truncates toward zero and `%` takes the
    sign of the dividend, where Dafny's are Euclidean. */
module CppArith {
  function Abs(x: int): nat { if x < 0 then -x else x }

  /** `q` is the quotient C++ gives for `a / b`: the remainder `a - q * b` is
      smaller than `b` in magnitude and is zero or has the sign of `a`. */
  predicate TruncatedQuotient(a: int, b: int, q: int)
  {
    Abs(a - q * b) < Abs(b) && (a - q * b == 0 || (a - q * b > 0 <==> a > 0))
  }

  /** C++ `a / b`. */
  function Div(a: int, b: int): (q: int)
    requires b != 0
    ensures TruncatedQuotient(a, b, q)
  {
    if a >= 0 && b > 0 then
      BothPositive(a, b);
      a / b
    else if a >= 0 then
      NegativeDivisor(a, b);
      -(a / -b)
    else if b > 0 then
      NegativeDividend(a, b);
      -(-a / b)
    else
      BothNegative(a, b);
      -a / -b
  }

  lemma BothPositive(a: int, b: int)
    requires a >= 0 && b > 0
    ensures TruncatedQuotient(a, b, a / b)
  {
    assert a - (a / b) * b == a % b;
  }

  lemma NegativeDivisor(a: int, b: int)
    requires a >= 0 && b < 0
    ensures TruncatedQuotient(a, b, -(a / -b))
  {
    var c := -b;
    assert (-(a / c)) * b == (a / c) * c;
    assert a - (a / c) * c == a % c;
  }

  lemma NegativeDividend(a: int, b: int)
    requires a < 0 && b > 0
    ensures TruncatedQuotient(a, b, -(-a / b))
  {
    var n := -a;
    assert (-(n / b)) * b == -((n / b) * b);
    assert n - (n / b) * b == n % b;
  }

  lemma BothNegative(a: int, b: int)
    requires a < 0 && b < 0
    ensures TruncatedQuotient(a, b, -a / -b)
  {
    var n, c := -a, -b;
    assert (n / c) * b == -((n / c) * c);
    assert n - (n / c) * c == n % c;
  }

  /** A non-zero multiple of `b` is at least `b` in magnitude. */
  lemma MultipleAtLeast(x: int, b: int)
    ensures x != 0 ==> Abs(x * b) >= Abs(b)
  {
    if x > 0 && b > 0 {
      assert (x - 1) * b >= 0;
    } else if x > 0 && b < 0 {
      assert (x - 1) * (-b) >= 0;
    } else if x < 0 && b > 0 {
      assert (-x - 1) * b >= 0;
    } else if x < 0 && b < 0 {
      assert (-x - 1) * (-b) >= 0;
    }
  }

  /** C++ `a % b`. */
  function Rem(a: int, b: int): int
    requires b != 0
  {
    a - Div(a, b) * b
  }

  /** A zero C++ remainder means `b` divides `a`, and then the quotient is exact. */
  lemma RemZeroIsExact(a: int, b: int)
    requires b != 0
    ensures Rem(a, b) == 0 <==> a % b == 0
    ensures Rem(a, b) == 0 ==> Div(a, b) * b == a
  {
    var q := Div(a, b);
    var k, m := a / b, a % b;
    assert a == k * b + m && 0 <= m < Abs(b);
    QuotientsAgree(a, b, q, k, m);
  }

  lemma QuotientsAgree(a: int, b: int, q: int, k: int, m: int)
    requires b != 0 && TruncatedQuotient(a, b, q)
    requires a == k * b + m && 0 <= m < Abs(b)
    ensures a - q * b == 0 <==> m == 0
  {
    MulSub(q, k, b);
    MulSub(k, q, b);
    MultipleAtLeast(q - k, b);
    MultipleAtLeast(k - q, b);
  }

  lemma MulSub(x: int, y: int, b: int)
    ensures (x - y) * b == x * b - y * b
  {
  }

  /** On a non-negative dividend and a positive divisor C++ and Dafny agree. */
  lemma DivRemOfNonNegative(a: int, b: int)
    requires a >= 0 && b > 0
    ensures Div(a, b) == a / b && Rem(a, b) == a % b
  {
  }

  /** C++ division is symmetric under negating the dividend. */
  lemma DivNegate(a: int, b: int)
    requires b != 0
    ensures Div(-a, b) == -Div(a, b) && Rem(-a, b) == -Rem(a, b)
  {
  }

  /** Euclidean quotient and remainder are determined by their defining equation. */
  lemma EuclidUnique(a: int, b: int, q: int, r: int)
    requires b > 0 && a == q * b + r && 0 <= r < b
    ensures q == a / b && r == a % b
  {
    var q', r' := a / b, a % b;
    assert a == q' * b + r';
    MulSub(q, q', b);
    MultipleAtLeast(q - q', b);
  }
}
