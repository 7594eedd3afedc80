/**
 * The pieces of Java arithmetic the Android client relies on, written out over
 * unbounded integers: 32- and 64-bit two's-complement wrap-around, division and
 * remainder that round toward zero, `Math.abs` on a `long`, and `Integer.parseInt`.
 */
module JavaMath {
  import opened Wrappers

  const INT_MIN: int := -0x8000_0000
  const INT_MAX: int := 0x7FFF_FFFF
  const LONG_MIN: int := -0x8000_0000_0000_0000
  const LONG_MAX: int := 0x7FFF_FFFF_FFFF_FFFF

  predicate IsInt(x: int) { INT_MIN <= x <= INT_MAX }
  predicate IsLong(x: int) { LONG_MIN <= x <= LONG_MAX }

  function Abs(x: int): nat { if x < 0 then -x else x }
  function Max(a: int, b: int): int { if a >= b then a else b }

  /**
   * Java's integer `/`: the quotient rounded toward zero (Dafny's `/` is
   * Euclidean). Its magnitude is the floor of the magnitudes, and it is
   * positive exactly when the operands agree in sign.
   */
  function JavaDiv(a: int, b: int): (q: int)
    requires b != 0
    ensures Abs(q) == Abs(a) / Abs(b)
    ensures q > 0 ==> (a > 0) == (b > 0)
    ensures q < 0 ==> (a > 0) != (b > 0)
  {
    var m := Abs(a) / Abs(b);
    assert a == 0 ==> m == 0;
    if (a >= 0) == (b > 0) then m else -m
  }

  /** Java's integer `%`, defined by Java's identity `(a / b) * b + a % b == a`. */
  function JavaRem(a: int, b: int): (r: int)
    requires b != 0
    ensures r == if a >= 0 then Abs(a) % Abs(b) else -(Abs(a) % Abs(b))
  {
    RemainderMagnitude(a, b);
    a - JavaDiv(a, b) * b
  }

  lemma RemainderMagnitude(a: int, b: int)
    requires b != 0
    ensures a - JavaDiv(a, b) * b == if a >= 0 then Abs(a) % Abs(b) else -(Abs(a) % Abs(b))
  {
    var x: int, y: int := Abs(a), Abs(b);
    var m: int := x / y;
    assert x == m * y + x % y;
    var q := JavaDiv(a, b);
    if a >= 0 && b > 0 {
      assert q * b == m * y;
    } else if a >= 0 {
      assert q == -m && b == -y;
      assert q * b == m * y;
    } else if b > 0 {
      assert q == -m && b == y;
      assert q * b == -(m * y);
    } else {
      assert q == m && b == -y;
      assert q * b == -(m * y);
    }
  }

  /** Truncating division agrees with floor division on a non-negative dividend. */
  lemma JavaDivNonNegative(a: int, b: int)
    requires a >= 0 && b > 0
    ensures JavaDiv(a, b) == a / b
  {
  }

  lemma NatDivZeroIff(x: nat, y: nat)
    requires y > 0
    ensures x / y == 0 <==> x < y
  {
    assert x == (x / y) * y + x % y;
    if x / y != 0 {
      assert x / y >= 1;
      assert (x / y) * y >= y by { MulAtLeast(x / y, y); }
    }
  }

  lemma MulAtLeast(k: nat, y: nat)
    requires k >= 1
    ensures k * y >= y
  {
    assert k * y == (k - 1) * y + y;
  }

  /** The quotient is zero exactly when the dividend is smaller in magnitude than the divisor. */
  lemma JavaDivZeroIff(a: int, b: int)
    requires b != 0
    ensures JavaDiv(a, b) == 0 <==> Abs(a) < Abs(b)
  {
    NatDivZeroIff(Abs(a), Abs(b));
  }

  /** For a positive divisor, a negative dividend above minus the divisor truncates to 0; one at or below it to at most -1. */
  lemma JavaDivNegative(a: int, b: int)
    requires a < 0 && b > 0
    ensures -b < a ==> JavaDiv(a, b) == 0
    ensures a <= -b ==> JavaDiv(a, b) <= -1
  {
    NatDivZeroIff(-a, b);
  }

  /** How many times 2^32 is taken off x when it is wrapped into 32 bits. */
  function Turns32(x: int): int { (x - INT_MIN) / 0x1_0000_0000 }

  /** Java's `(int)` cast and 32-bit `+`/`*`: the value modulo 2^32, read as signed. */
  function Wrap32(x: int): (r: int)
    ensures IsInt(r)
    ensures x == r + Turns32(x) * 0x1_0000_0000
    ensures IsInt(x) ==> r == x
  {
    (x - INT_MIN) % 0x1_0000_0000 + INT_MIN
  }

  /** Java's 64-bit `+`/`-`: the value modulo 2^64, read as signed. */
  function Wrap64(x: int): (r: int)
    ensures IsLong(r)
    ensures (x - r) % 0x1_0000_0000_0000_0000 == 0
    ensures IsLong(x) ==> r == x
  {
    (x - LONG_MIN) % 0x1_0000_0000_0000_0000 + LONG_MIN
  }

  /** `Math.abs(long)`: Long.MIN_VALUE has no positive counterpart and is returned unchanged. */
  function AbsLong(x: int): (r: int)
    requires IsLong(x)
    ensures IsLong(r)
    ensures x != LONG_MIN ==> r == Abs(x)
    ensures x == LONG_MIN ==> r == LONG_MIN
  {
    Wrap64(if x < 0 then -x else x)
  }

  // ---------------------------------------------------------------------------
  // Integer.parseInt and Integer.toString
  // ---------------------------------------------------------------------------

  predicate IsDigit(c: char) { '0' <= c <= '9' }

  predicate AllDigits(s: string) { forall i :: 0 <= i < |s| ==> IsDigit(s[i]) }

  /** The decimal value of a string of ASCII digits. */
  function DigitsValue(s: string): (v: nat)
    requires AllDigits(s)
  {
    if s == [] then 0
    else DigitsValue(s[..|s| - 1]) * 10 + (s[|s| - 1] as int - '0' as int)
  }

  /** A decimal numeral as `Integer.parseInt` reads it: an optional '-' and then at least one ASCII digit. */
  predicate Numeral(s: string)
  {
    var d := if s != [] && s[0] == '-' then s[1..] else s;
    d != [] && AllDigits(d)
  }

  /** The value of a numeral, negated when it starts with '-'. */
  function NumeralValue(s: string): int
    requires Numeral(s)
  {
    if s[0] == '-' then -(DigitsValue(s[1..]) as int) else DigitsValue(s)
  }

  /**
   * `Integer.parseInt(s)`: an optional leading '-' then one or more ASCII
   * decimal digits whose value fits in 32 bits; every other string, the
   * empty one included, is a NumberFormatException, modelled as None.
   */
  function ParseInt(s: string): (r: Option<int>)
    ensures r.Some? <==> Numeral(s) && IsInt(NumeralValue(s))
    ensures r.Some? ==> r.value == NumeralValue(s)
  {
    if s == [] then None
    else if s[0] == '-' then
      var digits := s[1..];
      if digits != [] && AllDigits(digits) && IsInt(-(DigitsValue(digits) as int)) then Some(-(DigitsValue(digits) as int)) else None
    else if AllDigits(s) && IsInt(DigitsValue(s)) then Some(DigitsValue(s))
    else None
  }

  /** The decimal digits of a natural number, most significant first, without leading zeros. */
  function NatToDigits(n: nat): (s: string)
    ensures s != [] && AllDigits(s)
    ensures n > 0 ==> s[0] != '0'
    decreases n
  {
    var d := ['0' + (n % 10) as char];
    if n < 10 then d else NatToDigits(n / 10) + d
  }

  /**
   * `Integer.toString(n)`, the partner of ParseInt: a '-' exactly for a
   * negative number, then its decimal digits with no leading zero.
   */
  function IntToString(n: int): (s: string)
    ensures Numeral(s)
    ensures s[0] == '-' <==> n < 0
    ensures var d := if n < 0 then s[1..] else s; d[0] == '0' ==> n == 0 && d == "0"
  {
    if n < 0 then "-" + NatToDigits(-n) else NatToDigits(n)
  }

  lemma {:induction false} DigitsRoundTrip(n: nat)
    ensures DigitsValue(NatToDigits(n)) == n
    decreases n
  {
    var s := NatToDigits(n);
    if n >= 10 {
      DigitsRoundTrip(n / 10);
      assert s[..|s| - 1] == NatToDigits(n / 10);
    }
  }

  /** Every 32-bit value survives printing and parsing back. */
  lemma ParseIntRoundTrip(n: int)
    requires IsInt(n)
    ensures ParseInt(IntToString(n)) == Some(n)
  {
    if n < 0 {
      DigitsRoundTrip(-n);
      assert IntToString(n)[1..] == NatToDigits(-n);
    } else {
      DigitsRoundTrip(n);
      assert NatToDigits(n)[0] != '-';
    }
  }
}
