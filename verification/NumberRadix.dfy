/** Printing an integer in a radix (src/builtins/BuiltinNumber.cpp): `itoa` and its caller. */
module NumberRadix {
  import opened Options
  import opened Sequences
  import opened TwosComplement

  const TWO_63: int := 0x8000_0000_0000_0000
  const TWO_64: int := 0x1_0000_0000_0000_0000

  function DigitChar(d: nat): char
    requires d < 36
  {
    if d < 10 then '0' + d as char else 'a' + (d - 10) as char
  }

  function DigitValue(c: char): int {
    if '0' <= c <= '9' then c as int - '0' as int
    else if 'a' <= c <= 'z' then c as int - 'a' as int + 10
    else -1
  }

  lemma MulMonotone(a: nat, b: nat, q: nat)
    requires a <= b
    ensures a * q <= b * q
  {
  }

  /** A quotient is at most half. */
  lemma Halves(v: nat, radix: nat)
    requires 2 <= radix
    ensures 0 <= v / radix && 2 * (v / radix) <= v && v == (v / radix) * radix + v % radix
  {
    var q := Quotient(v, radix);
    DivModUnique(v, radix, q, v % radix);
    MulMonotone(2, radix, q);
  }

  /** The digits of a positive number, the lowest first; none for 0. */
  function LowFirst(v: nat, radix: nat): string
    requires 2 <= radix <= 36
  {
    if v == 0 then ""
    else
      Halves(v, radix);
      [DigitChar(v % radix)] + LowFirst(v / radix, radix)
  }

  function Reverse(s: string): (r: string)
    ensures |r| == |s|
  {
    if s == "" then "" else Reverse(s[1..]) + [s[0]]
  }

  /** The digits as they are read, 0 having one. */
  function Digits(v: nat, radix: nat): string
    requires 2 <= radix <= 36
  {
    if v == 0 then "0" else Reverse(LowFirst(v, radix))
  }

  /** What a string of digits stands for. */
  function Parse(s: string, radix: nat): int {
    if s == "" then 0 else Parse(s[..|s| - 1], radix) * radix + DigitValue(s[|s| - 1])
  }

  function ParseSigned(s: string, radix: nat): int {
    if s != "" && s[0] == '-' then -Parse(s[1..], radix) else Parse(s, radix)
  }

  lemma DigitOfChar(d: nat)
    requires d < 36
    ensures DigitValue(DigitChar(d)) == d && (DigitChar(d) == '0' <==> d == 0)
  {
  }

  lemma ReverseCons(c: char, s: string)
    ensures Reverse([c] + s) == Reverse(s) + [c]
  {
    assert ([c] + s)[1..] == s;
  }

  lemma ParseSnoc(s: string, c: char, radix: nat)
    ensures Parse(s + [c], radix) == Parse(s, radix) * radix + DigitValue(c)
  {
    assert (s + [c])[..|s|] == s;
  }

  /** The lowest digit and the rest. */
  lemma SplitLowest(v: nat, radix: nat) returns (q: nat, d: nat)
    requires 2 <= radix <= 36 && 0 < v
    ensures d < radix && v == q * radix + d && q < v
    ensures q == v / radix && d == v % radix
    ensures LowFirst(v, radix) == [DigitChar(d)] + LowFirst(q, radix)
  {
    q, d := v / radix, v % radix;
    Halves(v, radix);
  }

  lemma {:induction false} ParseReversed(v: nat, radix: nat)
    requires 2 <= radix <= 36
    ensures Parse(Reverse(LowFirst(v, radix)), radix) == v
    decreases v
  {
    if 0 < v {
      var q, d := SplitLowest(v, radix);
      ParseReversed(q, radix);
      ReverseCons(DigitChar(d), LowFirst(q, radix));
      ParseSnoc(Reverse(LowFirst(q, radix)), DigitChar(d), radix);
      DigitOfChar(d);
    }
  }

  lemma {:induction false} DigitsAreDigits(v: nat, radix: nat)
    requires 2 <= radix <= 36
    ensures forall c :: c in LowFirst(v, radix) ==> 0 <= DigitValue(c) < radix
    decreases v
  {
    if 0 < v {
      var q, d := SplitLowest(v, radix);
      DigitsAreDigits(q, radix);
      DigitOfChar(d);
    }
  }

  lemma {:induction false} SameCharacters(s: string)
    ensures forall c :: c in Reverse(s) <==> c in s
  {
    if s != "" {
      SameCharacters(s[1..]);
    }
  }

  lemma {:induction false} HighestIsNotZero(v: nat, radix: nat)
    requires 2 <= radix <= 36 && 0 < v
    ensures var s := LowFirst(v, radix); s != "" && s[|s| - 1] != '0' && Reverse(s)[0] == s[|s| - 1]
    decreases v
  {
    var q, d := SplitLowest(v, radix);
    ReverseCons(DigitChar(d), LowFirst(q, radix));
    if q > 0 {
      HighestIsNotZero(q, radix);
    } else {
      DigitOfChar(d);
    }
  }

  /** Reading the digits back gives the number; they are digits of the radix, and the first one
      is not a zero unless the number is. */
  lemma DigitsRoundTrip(v: nat, radix: nat)
    requires 2 <= radix <= 36
    ensures Parse(Digits(v, radix), radix) == v
    ensures Digits(v, radix) != "" && (Digits(v, radix)[0] == '0' <==> v == 0)
    ensures forall c :: c in Digits(v, radix) ==> 0 <= DigitValue(c) < radix
  {
    if v == 0 {
      assert Parse("0", radix) == Parse("0"[..0], radix) * radix + DigitValue('0');
    } else {
      ParseReversed(v, radix);
      DigitsAreDigits(v, radix);
      SameCharacters(LowFirst(v, radix));
      HighestIsNotZero(v, radix);
    }
  }

  /** What `itoa` writes: a sign only in radix 10, otherwise the value as an unsigned 64-bit one. */
  function ItoaText(value: int, radix: nat): string
    requires 2 <= radix <= 36
  {
    if radix == 10 && value < 0 then "-" + Digits(-value, radix)
    else Digits(value % TWO_64, radix)
  }

  /** One division: the lowest digit, and the rest, which is at most half. */
  method NextDigit(v: nat, radix: nat) returns (i: nat, rest: nat)
    requires 2 <= radix <= 36
    ensures i < radix && 2 * rest <= v && (0 < v ==> rest < v)
    ensures 0 < v ==> LowFirst(v, radix) == [DigitChar(i)] + LowFirst(rest, radix)
    ensures v == 0 ==> i == 0 && rest == 0
  {
    i := v % radix;
    rest := v / radix;
    Halves(v, radix);
  }

  /** Reversing from the end, one character at a time. */
  lemma {:induction false} ReverseSnoc(s: string, c: char)
    ensures Reverse(s + [c]) == [c] + Reverse(s)
  {
    if s == "" {
      assert s + [c] == [c] && [c][1..] == "";
    } else {
      ReverseSnoc(s[1..], c);
      assert (s + [c])[1..] == s[1..] + [c];
      assert (s + [c])[0] == s[0];
    }
  }

  /** The digits `s` written so far and the value `v` still to print make up `v0`. */
  ghost predicate Written(s: string, v: nat, v0: nat, radix: nat)
    requires 2 <= radix <= 36
  {
    if v0 == 0 then v == 0 && (s == "" || s == "0")
    else s + LowFirst(v, radix) == LowFirst(v0, radix) && (s == "" ==> v == v0)
  }

  lemma WriteLowest(s: string, v: nat, rest: nat, i: nat, v0: nat, radix: nat)
    requires 2 <= radix <= 36 && i < radix && Written(s, v, v0, radix)
    requires v != 0 || s == ""
    requires 0 < v ==> LowFirst(v, radix) == [DigitChar(i)] + LowFirst(rest, radix)
    requires v == 0 ==> i == 0 && rest == 0
    ensures Written(s + [DigitChar(i)], rest, v0, radix)
  {
    if v0 == 0 {
      assert s + [DigitChar(i)] == ['0'];
    } else {
      Associative(s, [DigitChar(i)], LowFirst(rest, radix));
    }
  }

  lemma SixtyFourBits(room: nat)
    requires room == 64
    ensures Pow2(room) == TWO_64
  {
    assert Pow2(8) == 256;
    Pow2Sum(8, 8);
    assert Pow2(16) == 0x1_0000;
    Pow2Sum(16, 16);
    assert Pow2(32) == 0x1_0000_0000;
    Pow2Sum(32, 32);
  }

  /** Fills the temporary buffer with the digits, the lowest first; 64 places are enough. */
  method FillDigits(tmp: array<char>, v0: nat, radix: nat) returns (tp: nat)
    requires 2 <= radix <= 36 && v0 < TWO_64 && 64 <= tmp.Length
    modifies tmp
    ensures 0 < tp <= 64 && tmp[..tp] == if v0 == 0 then "0" else LowFirst(v0, radix)
  {
    var v: nat := v0;
    tp := 0;
    ghost var room: nat := 64;
    SixtyFourBits(room);
    assert "" + LowFirst(v0, radix) == LowFirst(v0, radix);
    while v != 0 || tp == 0
      invariant tp + room == 64 && v < Pow2(room)
      invariant Written(tmp[..tp], v, v0, radix)
      decreases v, 1 - tp
    {
      ghost var before := tmp[..tp];
      var i, rest := NextDigit(v, radix);
      WriteLowest(before, v, rest, i, v0, radix);
      assert 0 < room;
      v := rest;
      tmp[tp] := DigitChar(i);
      tp := tp + 1;
      room := room - 1;
      assert tmp[..tp] == before + [DigitChar(i)];
    }
    assert tmp[..tp] + "" == tmp[..tp];
  }

  /** Copies the temporary buffer backwards behind the first `at` characters. */
  method CopyBack(sp: array<char>, at: nat, tmp: array<char>, n: nat) returns (p: nat)
    requires sp != tmp && n <= tmp.Length && at + n <= sp.Length
    modifies sp
    ensures p == at + n && sp[..p] == old(sp[..at]) + Reverse(old(tmp[..n]))
  {
    p := at;
    var tp := n;
    ghost var goal := sp[..at] + Reverse(tmp[..n]);
    while tp > 0
      invariant 0 <= tp <= n && p == at + n - tp
      invariant sp[..p] + Reverse(tmp[..tp]) == goal
    {
      ghost var before, s := sp[..p], tmp[..tp - 1];
      tp := tp - 1;
      assert tmp[..tp + 1] == s + [tmp[tp]];
      ReverseSnoc(s, tmp[tp]);
      sp[p] := tmp[tp];
      p := p + 1;
      assert sp[..p] == before + [tmp[tp]];
      Associative(before, [tmp[tp]], Reverse(s));
    }
    assert sp[..p] + "" == sp[..p];
  }

  lemma DigitsFromBuffer(low: string, v: nat, radix: nat)
    requires 2 <= radix <= 36 && low == if v == 0 then "0" else LowFirst(v, radix)
    ensures Reverse(low) == Digits(v, radix)
  {
    if v == 0 {
      ReverseCons('0', "");
      assert ['0'] + "" == "0" && Reverse("") + ['0'] == "0";
    }
  }

  /** The text, put together from its sign and its digits. */
  lemma SignAndDigits(prefix: string, value: int, v: nat, radix: nat)
    requires 2 <= radix <= 36
    requires v == if radix == 10 && value < 0 then -value else value % TWO_64
    ensures var sign := if radix == 10 && value < 0 then "-" else "";
      && ItoaText(value, radix) == sign + Digits(v, radix)
      && prefix + sign + Digits(v, radix) == prefix + ItoaText(value, radix)
  {
    var sign := if radix == 10 && value < 0 then "-" else "";
    assert "" + Digits(v, radix) == Digits(v, radix);
    Associative(prefix, sign, Digits(v, radix));
  }

  /** Writes the number and a final NUL into `sp` from index `at` on; returns the length. */
  method Itoa(value: int, sp: array<char>, at: nat, radix: nat) returns (len: nat)
    requires 2 <= radix <= 36 && -TWO_63 <= value < TWO_63
    requires radix == 10 ==> value != -TWO_63
    requires at + 66 <= sp.Length
    modifies sp
    ensures len == |ItoaText(value, radix)| <= 65
    ensures sp[..at + len] == old(sp[..at]) + ItoaText(value, radix)
    ensures sp[at + len] == '\0'
  {
    var tmp := new char[256](_ => '\0');
    var sign := radix == 10 && value < 0;
    var v: nat;
    if sign {
      v := -value;
    } else {
      v := value % TWO_64;
    }
    var tp := FillDigits(tmp, v, radix);
    ghost var low, digits := tmp[..tp], Digits(v, radix);
    assert Reverse(low) == digits by {
      DigitsFromBuffer(low, v, radix);
    }
    ghost var prefix, sgn := sp[..at], if sign then "-" else "";
    len := tp;
    var p := at;
    if sign {
      sp[p] := '-';
      p := p + 1;
      len := len + 1;
    }
    assert sp[..p] == prefix + sgn;
    p := CopyBack(sp, p, tmp, tp);
    ghost var all := sp[..p];
    assert all == prefix + sgn + digits;
    sp[p] := '\0';
    assert sp[..p] == all;
    SignAndDigits(prefix, value, v, radix);
  }

  /** The text of an integer: a sign and the digits of its magnitude. */
  function NumberText(number: int, radix: nat): string
    requires 2 <= radix <= 36
  {
    if number < 0 then "-" + Digits(-number, radix) else Digits(number, radix)
  }

  /** Reading the text of an integer back gives the integer. */
  lemma NumberTextRoundTrip(number: int, radix: nat)
    requires 2 <= radix <= 36
    ensures ParseSigned(NumberText(number, radix), radix) == number
  {
    DigitsRoundTrip(if number < 0 then -number else number, radix);
    if number < 0 {
      assert NumberText(number, radix)[1..] == Digits(-number, radix);
    } else {
      assert DigitValue('-') == -1;
    }
  }

  /** Neither a sign nor a digit is a NUL. */
  lemma NoNul(number: int, radix: nat)
    requires 2 <= radix <= 36
    ensures '\0' !in NumberText(number, radix)
  {
    DigitsRoundTrip(if number < 0 then -number else number, radix);
    assert DigitValue('\0') == -1;
  }

  /** A sign, or nothing, and what `itoa` writes for the magnitude. */
  lemma TextOfMagnitude(number: int, radix: nat, magnitude: nat)
    requires 2 <= radix <= 36 && magnitude == (if number < 0 then -number else number) < TWO_63
    ensures (if number < 0 then "-" else "") + ItoaText(magnitude, radix) == NumberText(number, radix)
    ensures '\0' !in NumberText(number, radix)
  {
    assert magnitude % TWO_64 == magnitude;
    assert "" + Digits(magnitude, radix) == Digits(magnitude, radix);
    NoNul(number, radix);
  }

  /** The length of a NUL-terminated text. */
  method StringLength(buffer: array<char>, ghost text: string) returns (n: nat)
    requires |text| < buffer.Length && buffer[..|text|] == text && buffer[|text|] == '\0'
    requires '\0' !in text
    ensures n == |text|
  {
    n := 0;
    forall i | 0 <= i < |text| ensures buffer[i] != '\0' {
      assert buffer[i] == buffer[..|text|][i] == text[i];
    }
    while buffer[n] != '\0'
      invariant 0 <= n <= |text|
      decreases |text| - n
    {
      n := n + 1;
    }
  }

  /** The integer branch for a radix other than 10, through a NUL-terminated buffer. */
  method NumberToString(number: int, radix: int) returns (res: Result<string>)
    requires -TWO_63 < number < TWO_63 && radix != 10
    ensures 2 <= radix <= 36 ==> res == Ok(NumberText(number, radix))
    ensures radix < 2 || 36 < radix ==> res == Err(RangeError)
  {
    if radix < 2 || radix > 36 {
      return Err(RangeError);
    }
    var minusFlag := number < 0;
    var magnitude := if number < 0 then -1 * number else number;
    ghost var text := NumberText(number, radix);
    TextOfMagnitude(number, radix, magnitude);
    var buffer := new char[256](_ => '\0');
    if minusFlag {
      buffer[0] := '-';
      assert buffer[..1] == "-";
      var len := Itoa(magnitude, buffer, 1, radix);
    } else {
      assert buffer[..0] == "";
      var len := Itoa(magnitude, buffer, 0, radix);
    }
    var n := StringLength(buffer, text);
    return Ok(buffer[..n]);
  }
}
