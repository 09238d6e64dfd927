/** BigInt.asUintN and BigInt.asIntN (src/builtins/BuiltinBigInt.cpp). */
module BigIntWrap {
  import opened Limits
  import opened Options
  import opened TwosComplement

  /** `r` is congruent to `x` modulo 2 to the power of `bits`. */
  ghost predicate SameLowBits(bits: nat, x: int, r: int) {
    (x - r) % Pow2(bits) == 0
  }

  /** The residue of `x` of the given width. */
  function UintN(bits: nat, x: int): (r: int)
    ensures 0 <= r < Pow2(bits) && SameLowBits(bits, x, r)
  {
    ResidueIsCongruent(x, Pow2(bits));
    x % Pow2(bits)
  }

  /** `r` is the signed integer of the given width that is congruent to `x`; with no bits, 0. */
  ghost predicate IsIntN(bits: nat, x: int, r: int) {
    if bits == 0 then r == 0
    else 0 <= r + Pow2(bits - 1) && r < Pow2(bits - 1) && SameLowBits(bits, x, r)
  }

  lemma CongruentIff(bits: nat, x: int, r: int)
    ensures SameLowBits(bits, x, r) <==> UintN(bits, x) == UintN(bits, r)
  {
    var m := Pow2(bits);
    ModDifference(x, r, m);
    if UintN(bits, x) == UintN(bits, r) {
      assert 0 % m == 0;
    } else if SameLowBits(bits, x, r) {
      var d := x % m - r % m;
      assert d % m == 0 && -m < d < m && d != 0;
      if 0 < d { DivModUnique(d, m, 0, d); } else { DivModUnique(d, m, -1, d + m); }
    }
  }

  /** The conditions leave no choice. */
  lemma IntNIsUnique(bits: nat, x: int, r: int, s: int)
    requires IsIntN(bits, x, r) && IsIntN(bits, x, s)
    ensures r == s
  {
    if 0 < bits {
      var m, half := Pow2(bits), Pow2(bits - 1);
      CongruentIff(bits, x, r);
      CongruentIff(bits, x, s);
      CongruentIff(bits, r, s);
      var d := r - s;
      assert d % m == 0 && -m < d < m;
      if 0 < d { DivModUnique(d, m, 0, d); } else if d < 0 { DivModUnique(d, m, -1, d + m); }
    }
  }

  /** Wrapping twice is wrapping once, and either way of wrapping keeps what the other sees. */
  lemma WrapTwice(bits: nat, x: int, r: int, s: int)
    requires IsIntN(bits, x, r) && IsIntN(bits, r, s)
    ensures UintN(bits, UintN(bits, x)) == UintN(bits, x)
    ensures s == r
    ensures UintN(bits, r) == UintN(bits, x)
    ensures IsIntN(bits, UintN(bits, x), r)
  {
    var m := Pow2(bits);
    DivModUnique(UintN(bits, x), m, 0, UintN(bits, x));
    CongruentIff(bits, x, r);
    CongruentIff(bits, r, r);
    CongruentIff(bits, UintN(bits, x), r);
    if 0 < bits {
      IntNIsUnique(bits, r, r, s);
    }
  }

  /** Wrapping commutes with addition and multiplication. */
  lemma WrapIsHomomorphic(bits: nat, x: int, y: int)
    ensures UintN(bits, UintN(bits, x) + UintN(bits, y)) == UintN(bits, x + y)
    ensures UintN(bits, UintN(bits, x) * UintN(bits, y)) == UintN(bits, x * y)
  {
    ModSum(x, y, Pow2(bits));
    ModProduct(x, y, Pow2(bits));
  }

  lemma SignedWrapIsHomomorphic(bits: nat, x: int, y: int, a: int, b: int, s: int, p: int)
    requires IsIntN(bits, x, a) && IsIntN(bits, y, b)
    ensures IsIntN(bits, a + b, s) <==> IsIntN(bits, x + y, s)
    ensures IsIntN(bits, a * b, p) <==> IsIntN(bits, x * y, p)
  {
    CongruentIff(bits, x, a);
    CongruentIff(bits, y, b);
    WrapIsHomomorphic(bits, x, y);
    WrapIsHomomorphic(bits, a, b);
    CongruentIff(bits, a + b, s);
    CongruentIff(bits, x + y, s);
    CongruentIff(bits, a * b, p);
    CongruentIff(bits, x * y, p);
  }

  /** The residue by masking with ones; refuses an index out of range. */
  method AsUintN(bits: int, bigint: int) returns (res: Result<int>)
    ensures 0 <= bits <= MAXIMUM_LENGTH ==> res == Ok(UintN(bits, bigint))
    ensures !(0 <= bits <= MAXIMUM_LENGTH) ==> res == Err(RangeError)
  {
    if bits < 0 || bits > MAXIMUM_LENGTH {
      return Err(RangeError);
    }
    var mask := 1;
    mask := mask * Pow2(bits);
    mask := mask + -1;
    var r := Bitwise(And, bigint, mask);
    AndMask(bigint, bits);
    return Ok(r);
  }

  function Absolute(x: int): nat {
    if x < 0 then -x else x
  }

  /** The signed residue; the comparison with the sign bit is one of absolute values. */
  method AsIntN(bits: int, bigint: int) returns (res: Result<int>)
    ensures 0 <= bits <= MAXIMUM_LENGTH ==> res.Ok? && IsIntN(bits, bigint, res.value)
    ensures !(0 <= bits <= MAXIMUM_LENGTH) ==> res == Err(RangeError)
  {
    if bits < 0 || bits > MAXIMUM_LENGTH {
      return Err(RangeError);
    }
    var mask := 1;
    mask := mask * Pow2(bits);
    mask := mask + -1;
    var r := Bitwise(And, bigint, mask);
    AndMask(bigint, bits);
    ghost var residue := r;
    DivModUnique(residue, Pow2(bits), 0, residue);
    CongruentIff(bits, bigint, residue);
    if bits != 0 {
      mask := 1;
      mask := mask * Pow2(bits - 1);
      if Absolute(r) >= Absolute(mask) {
        mask := 1;
        mask := mask * Pow2(bits);
        r := r - mask;
        ModPlusMultiple(bigint - residue, 1, Pow2(bits));
      }
    }
    return Ok(r);
  }
}
