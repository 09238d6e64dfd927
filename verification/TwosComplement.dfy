/** Integers as infinite two's complement: powers of two, bits, bitwise operations and residues. */
module TwosComplement {

  function Pow2(n: nat): (p: nat)
    ensures 0 < p
  {
    if n == 0 then 1 else 2 * Pow2(n - 1)
  }

  lemma {:induction false} Pow2Sum(a: nat, b: nat)
    ensures Pow2(a + b) == Pow2(a) * Pow2(b)
  {
    if 0 < a {
      Pow2Sum(a - 1, b);
      assert Pow2(a + b) == 2 * Pow2(a - 1 + b);
      assert 2 * (Pow2(a - 1) * Pow2(b)) == 2 * Pow2(a - 1) * Pow2(b);
    }
  }

  lemma Distribute(a: int, b: int, m: int)
    ensures (a + b) * m == a * m + b * m
  {
  }

  lemma MulAtLeast(k: int, d: int)
    requires 1 <= k && 0 < d
    ensures k * d >= d
  {
  }

  /** A quotient and a remainder in range are the quotient and the remainder. */
  lemma DivModUnique(x: int, d: int, q: int, r: int)
    requires 0 < d && 0 <= r < d && x == q * d + r
    ensures x / d == q && x % d == r
  {
    var q', r' := x / d, x % d;
    assert (q - q') * d == r' - r by {
      Distribute(q, -q', d);
    }
    if q > q' {
      MulAtLeast(q - q', d);
      assert false;
    }
    if q < q' {
      MulAtLeast(q' - q, d);
      Distribute(q - q', q' - q, d);
      assert false;
    }
  }

  /** Halving once and taking the residue of the half. */
  lemma ModByDouble(x: int, p: nat)
    requires 0 < p
    ensures x % (2 * p) == 2 * ((x / 2) % p) + x % 2
    ensures x / (2 * p) == (x / 2) / p
  {
    var h := x / 2;
    var k, m := h / p, h % p;
    assert h == k * p + m;
    assert x == 2 * h + x % 2;
    assert 2 * (k * p) == k * (2 * p);
    DivModUnique(x, 2 * p, k, 2 * m + x % 2);
  }

  /** Adding multiples of the modulus changes nothing. */
  lemma ModPlusMultiple(x: int, k: int, m: int)
    requires 0 < m
    ensures (x + k * m) % m == x % m
  {
    var q, r := x / m, x % m;
    assert x == q * m + r;
    assert (q + k) * m == q * m + k * m;
    DivModUnique(x + k * m, m, q + k, r);
  }

  /** The quotient, as a witness. */
  lemma Quotient(x: int, m: int) returns (q: int)
    requires 0 < m
    ensures x == q * m + x % m
  {
    q := x / m;
  }

  lemma ResidueIsCongruent(x: int, m: int)
    requires 0 < m
    ensures (x - x % m) % m == 0
  {
    var q := Quotient(x, m);
    DivModUnique(x - x % m, m, q, 0);
  }

  /** Residues of sums, differences and products depend on the residues only. */
  lemma ModSum(x: int, y: int, m: int)
    requires 0 < m
    ensures (x % m + y % m) % m == (x + y) % m
  {
    var a := Quotient(x, m);
    var b := Quotient(y, m);
    Distribute(a, b, m);
    ModPlusMultiple(x % m + y % m, a + b, m);
  }

  lemma ModDifference(x: int, y: int, m: int)
    requires 0 < m
    ensures (x % m - y % m) % m == (x - y) % m
  {
    var a := Quotient(x, m);
    var b := Quotient(y, m);
    Distribute(a, -b, m);
    assert -b * m == -(b * m);
    ModPlusMultiple(x % m - y % m, a + -b, m);
  }

  lemma ProductParts(a: int, r: int, b: int, s: int, m: int)
    ensures (a * m + r) * (b * m + s) == r * s + (a * (b * m + s) + r * b) * m
  {
    var y := b * m + s;
    Distribute(a * m, r, y);
    assert a * m * y == a * y * m;
    assert r * y == r * (b * m) + r * s;
    assert r * (b * m) == r * b * m;
    Distribute(a * y, r * b, m);
  }

  lemma ModProductParts(x: int, y: int, a: int, r: int, b: int, s: int, m: int)
    requires 0 < m && x == a * m + r && y == b * m + s
    ensures (r * s) % m == (x * y) % m
  {
    ProductParts(a, r, b, s, m);
    ModPlusMultiple(r * s, a * y + r * b, m);
  }

  lemma ModProduct(x: int, y: int, m: int)
    requires 0 < m
    ensures (x % m * (y % m)) % m == (x * y) % m
  {
    var a := Quotient(x, m);
    var b := Quotient(y, m);
    ModProductParts(x, y, a, x % m, b, y % m, m);
  }

  /** Bit `i` of an integer, negative ones continuing with ones for ever. */
  function Bit(x: int, i: nat): (b: int)
    ensures b == 0 || b == 1
    decreases i
  {
    if i == 0 then x % 2 else Bit(x / 2, i - 1)
  }

  datatype BitOp = And | Or | Xor

  function OnBits(op: BitOp, a: int, b: int): (c: int)
    ensures c == 0 || c == 1
  {
    match op
    case And => if a == 1 && b == 1 then 1 else 0
    case Or => if a == 1 || b == 1 then 1 else 0
    case Xor => if a == b then 0 else 1
  }

  function Magnitude(x: int): nat {
    if x < 0 then -1 - x else x
  }

  /** The bitwise operations on infinite two's complement. */
  function Bitwise(op: BitOp, x: int, y: int): int
    decreases Magnitude(x) + Magnitude(y)
  {
    if Magnitude(x) == 0 && Magnitude(y) == 0 then -OnBits(op, x % 2, y % 2)
    else 2 * Bitwise(op, x / 2, y / 2) + OnBits(op, x % 2, y % 2)
  }

  /** The recursion may be unrolled at its end too. */
  lemma BitwiseUnroll(op: BitOp, x: int, y: int)
    ensures Bitwise(op, x, y) == 2 * Bitwise(op, x / 2, y / 2) + OnBits(op, x % 2, y % 2)
  {
  }

  /** Every bit of the result comes from the two bits at its place. */
  lemma {:induction false} BitwiseBits(op: BitOp, x: int, y: int, i: nat)
    ensures Bit(Bitwise(op, x, y), i) == OnBits(op, Bit(x, i), Bit(y, i))
    decreases i
  {
    BitwiseUnroll(op, x, y);
    if 0 < i {
      BitwiseBits(op, x / 2, y / 2, i - 1);
    }
  }

  lemma ModOfDouble(h: int, k: int, c: int, p: int)
    requires 0 < p && 0 <= c < 2 && h % p == k % p
    ensures (2 * h + c) % (2 * p) == (2 * k + c) % (2 * p)
  {
    ModByDouble(2 * h + c, p);
    ModByDouble(2 * k + c, p);
  }

  lemma HalfOfMod(x: int, w: nat)
    requires 0 < w
    ensures (x % Pow2(w)) / 2 == (x / 2) % Pow2(w - 1) && (x % Pow2(w)) % 2 == x % 2
  {
    ModByDouble(x, Pow2(w - 1));
  }

  /** The low bits of a bitwise result come from the low bits of the operands. */
  lemma {:induction false} BitwiseMod(op: BitOp, x: int, y: int, w: nat)
    ensures Bitwise(op, x % Pow2(w), y % Pow2(w)) % Pow2(w) == Bitwise(op, x, y) % Pow2(w)
    decreases w
  {
    if 0 < w {
      HalfOfMod(x, w);
      HalfOfMod(y, w);
      BitwiseUnroll(op, x, y);
      BitwiseUnroll(op, x % Pow2(w), y % Pow2(w));
      BitwiseMod(op, x / 2, y / 2, w - 1);
      ModOfDouble(Bitwise(op, (x / 2) % Pow2(w - 1), (y / 2) % Pow2(w - 1)), Bitwise(op, x / 2, y / 2),
                  OnBits(op, x % 2, y % 2), Pow2(w - 1));
    }
  }

  /** Taking the residue keeps the low bits. */
  lemma {:induction false} LowBit(x: int, w: nat, i: nat)
    requires i < w
    ensures Bit(x % Pow2(w), i) == Bit(x, i)
    decreases i
  {
    HalfOfMod(x, w);
    if 0 < i {
      LowBit(x / 2, w - 1, i - 1);
    }
  }

  lemma {:induction false} AndZero(x: int)
    ensures Bitwise(And, x, 0) == 0
    decreases Magnitude(x)
  {
    if Magnitude(x) != 0 {
      AndZero(x / 2);
    }
  }

  /** Masking with ones in the low `b` places is taking the residue, for negative integers too. */
  lemma {:induction false} AndMask(x: int, b: nat)
    ensures Bitwise(And, x, Pow2(b) - 1) == x % Pow2(b)
    decreases b
  {
    if b == 0 {
      AndZero(x);
    } else {
      var p := Pow2(b - 1);
      assert (Pow2(b) - 1) / 2 == p - 1 && (Pow2(b) - 1) % 2 == 1;
      BitwiseUnroll(And, x, Pow2(b) - 1);
      AndMask(x / 2, b - 1);
      ModByDouble(x, p);
    }
  }
}
