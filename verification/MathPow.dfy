/** The integer-exponent branch of Math.pow (src/builtins/BuiltinMath.cpp), over exact reals. */
module MathPow {

  function Power(x: real, n: nat): real {
    if n == 0 then 1.0 else x * Power(x, n - 1)
  }

  /** A quotient; dividing by zero gives an infinity. */
  datatype Quotient = Finite(value: real) | Infinity

  function Reciprocal(p: real): Quotient {
    if p == 0.0 then Infinity else Finite(1.0 / p)
  }

  lemma {:induction false} PowerSum(x: real, a: nat, b: nat)
    ensures Power(x, a + b) == Power(x, a) * Power(x, b)
    decreases a
  {
    if 0 < a {
      PowerSum(x, a - 1, b);
    }
  }

  lemma {:induction false} PowerOfSquare(x: real, n: nat)
    ensures Power(x * x, n) == Power(x, 2 * n)
    decreases n
  {
    if 0 < n {
      PowerOfSquare(x, n - 1);
      assert Power(x, 2 * n) == x * Power(x, 2 * n - 1) == x * (x * Power(x, 2 * n - 2));
    }
  }

  lemma {:induction false} PowerNonzero(x: real, n: nat)
    requires x != 0.0
    ensures Power(x, n) != 0.0
  {
    if 0 < n {
      PowerNonzero(x, n - 1);
    }
  }

  function Magnitude(y: int): nat {
    if y < 0 then -y else y
  }

  /** The power of a base other than zero for any integer exponent. */
  function IntegerPower(x: real, y: int): (r: real)
    requires x != 0.0
    ensures r != 0.0
  {
    PowerNonzero(x, Magnitude(y));
    if y < 0 then 1.0 / Power(x, -y) else Power(x, y)
  }

  lemma ReciprocalOfProduct(p: real, q: real)
    requires p != 0.0 && q != 0.0
    ensures p * q != 0.0 && 1.0 / (p * q) == (1.0 / p) * (1.0 / q)
  {
    assert (1.0 / p) * (1.0 / q) * (p * q) == 1.0;
  }

  lemma CancelLeft(p: real, d: real)
    requires p != 0.0 && d != 0.0
    ensures p * d != 0.0 && p * (1.0 / (p * d)) == 1.0 / d
  {
    ReciprocalOfProduct(p, d);
    assert p * ((1.0 / p) * (1.0 / d)) == (p * (1.0 / p)) * (1.0 / d);
  }

  lemma CancelRight(d: real, q: real)
    requires q != 0.0
    ensures d * q * (1.0 / q) == d
  {
    assert d * q * (1.0 / q) == d * (q * (1.0 / q));
  }

  lemma OppositeSigns(x: real, a: int, b: int)
    requires x != 0.0 && 0 <= a && 0 < b
    ensures IntegerPower(x, a - b) == IntegerPower(x, a) * IntegerPower(x, -b)
  {
    PowerNonzero(x, a);
    PowerNonzero(x, b);
    var p, q := Power(x, a), Power(x, b);
    assert IntegerPower(x, -b) == 1.0 / q;
    if a < b {
      PowerNonzero(x, b - a);
      PowerSum(x, a, b - a);
      CancelLeft(p, Power(x, b - a));
    } else {
      PowerSum(x, a - b, b);
      CancelRight(Power(x, a - b), q);
    }
  }

  /** Together with the law for sums this fixes all integer powers. */
  lemma UnitPowers(x: real)
    requires x != 0.0
    ensures IntegerPower(x, 0) == 1.0 && IntegerPower(x, 1) == x && IntegerPower(x, -1) * x == 1.0
  {
    assert Power(x, 1) == x * Power(x, 0);
  }

  /** Exponents add up, whatever their signs. */
  lemma IntegerPowerSum(x: real, a: int, b: int)
    requires x != 0.0
    ensures IntegerPower(x, a + b) == IntegerPower(x, a) * IntegerPower(x, b)
  {
    if a >= 0 && b >= 0 {
      PowerSum(x, a, b);
    } else if a < 0 && b < 0 {
      PowerNonzero(x, -a);
      PowerNonzero(x, -b);
      PowerSum(x, -a, -b);
      ReciprocalOfProduct(Power(x, -a), Power(x, -b));
    } else if a < 0 {
      OppositeSigns(x, b, -a);
    } else {
      OppositeSigns(x, a, -b);
    }
  }

  lemma AssociativeProduct(a: real, b: real, c: real)
    ensures (a * b) * c == a * (b * c)
  {
  }

  /** Taking the low bit into the product and squaring keeps the value. */
  lemma StepKeepsProduct(p: real, m: real, n: nat, p': real, n': nat)
    requires n' == n / 2 && p' == if n % 2 != 0 then p * m else p
    ensures p' * Power(m * m, n') == p * Power(m, n)
    ensures n' == 0 ==> p' == p * Power(m, n)
  {
    PowerOfSquare(m, n');
    var q := Power(m, 2 * n');
    if n % 2 != 0 {
      assert Power(m, n) == m * q by { assert n == 2 * n' + 1; }
      AssociativeProduct(p, m, q);
    }
  }

  /** Square and multiply. */
  method Pow(x: real, y: int) returns (res: Quotient)
    requires -0x8000_0000 <= y < 0x8000_0000
    ensures x != 0.0 ==> res == Finite(IntegerPower(x, y))
    ensures x == 0.0 ==> res == if y < 0 then Infinity else Finite(if y == 0 then 1.0 else 0.0)
  {
    var n: nat := if y < 0 then -y else y;
    ghost var magnitude := n;
    var m := x;
    var p := 1.0;
    while true
      invariant p * Power(m, n) == Power(x, magnitude)
      decreases n
    {
      ghost var p0, n0 := p, n;
      if n % 2 != 0 {
        p := p * m;
      }
      n := n / 2;
      StepKeepsProduct(p0, m, n0, p, n);
      if n == 0 {
        if x != 0.0 {
          PowerNonzero(x, magnitude);
        } else {
          assert 0 < magnitude ==> Power(0.0, magnitude) == 0.0;
        }
        if y < 0 {
          return Reciprocal(p);
        }
        return Finite(p);
      }
      m := m * m;
    }
  }
}
