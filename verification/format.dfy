/** The numeric conversions the printer uses through absl::StrFormat:
    `%d` for repetition counts and match ids, `%x` and `%02x` for rune
    escapes.  Each writer has a reader beside it, and the two are proved
    inverse. */
module Format {

  import opened Wrappers

  /** Whether c is a digit of the given base (at most 16), in lower case. */
  predicate IsDigit(c: char, base: nat)
  {
    ('0' <= c <= '9' && (c as int) - ('0' as int) < base)
    || ('a' <= c <= 'f' && (c as int) - ('a' as int) + 10 < base)
  }

  /** The lower-case digit character for d. */
  function Digit(d: nat): (c: char)
    requires d < 16
    ensures IsDigit(c, d + 1) && !IsDigit(c, d)
  {
    if d < 10 then ((('0' as int) + d) as char) else ((('a' as int) + d - 10) as char)
  }

  /** The value of a digit character. */
  function DigitValue(c: char): (d: nat)
    requires IsDigit(c, 16)
    ensures d < 16 && Digit(d) == c
  {
    if c <= '9' then (c as int) - ('0' as int) else (c as int) - ('a' as int) + 10
  }

  /** Splitting off the last digit of n shortens it. */
  lemma {:induction false} LastDigit(n: nat, base: nat)
    requires 2 <= base <= n
    ensures 1 <= n / base < n && n % base < base && n == n / base * base + n % base
  {
  }

  /** n written in the given base, most significant digit first, without
      leading zeros ("0" for zero). */
  function Numeral(n: nat, base: nat): (s: string)
    requires 2 <= base <= 16
    ensures 1 <= |s| && forall i :: 0 <= i < |s| ==> IsDigit(s[i], base)
    ensures s[0] == '0' <==> n == 0
    decreases n
  {
    if n < base then [Digit(n)]
    else
      LastDigit(n, base);
      Numeral(n / base, base) + [Digit(n % base)]
  }

  lemma {:induction false} NonNegativeProduct(a: nat, b: nat)
    ensures a * b >= 0
  {
  }

  /** The value of a string of digits in the given base. */
  function NumeralValue(s: string, base: nat): nat
    requires 2 <= base <= 16
    requires forall i :: 0 <= i < |s| ==> IsDigit(s[i], base)
    decreases |s|
  {
    if s == [] then 0
    else
      var last := s[|s| - 1];
      assert IsDigit(last, base);
      var high: nat := NumeralValue(s[..|s| - 1], base);
      NonNegativeProduct(high, base);
      high * base + DigitValue(last)
  }

  /** Reading a numeral gives back the number it was written from. */
  lemma {:induction false} NumeralRoundTrip(n: nat, base: nat)
    requires 2 <= base <= 16
    ensures NumeralValue(Numeral(n, base), base) == n
    decreases n
  {
    var s := Numeral(n, base);
    if n >= base {
      LastDigit(n, base);
      NumeralRoundTrip(n / base, base);
      assert s[..|s| - 1] == Numeral(n / base, base);
    }
  }

  /** Two numbers are written alike only if they are equal. */
  lemma {:induction false} NumeralInjective(m: nat, n: nat, base: nat)
    requires 2 <= base <= 16
    ensures Numeral(m, base) == Numeral(n, base) <==> m == n
  {
    NumeralRoundTrip(m, base);
    NumeralRoundTrip(n, base);
  }

  /** `%d`: a minus sign for negative values, then the decimal digits. */
  function Decimal(n: int): (s: string)
    ensures |s| >= 1 && (s[0] == '-' <==> n < 0)
  {
    if n < 0 then "-" + Numeral(-n, 10) else Numeral(n, 10)
  }

  /** The reader for `%d`: an optional minus sign, then decimal digits. */
  function DecimalValue(s: string): (v: Option<int>)
  {
    var neg := |s| > 0 && s[0] == '-';
    var digits := if neg then s[1..] else s;
    if |digits| > 0 && forall i :: 0 <= i < |digits| ==> IsDigit(digits[i], 10) then
      var m: int := NumeralValue(digits, 10);
      Some(if neg then -m else m)
    else None
  }

  /** `%d` is read back exactly. */
  lemma {:induction false} DecimalRoundTrip(n: int)
    ensures DecimalValue(Decimal(n)) == Some(n)
  {
    var s := Decimal(n);
    var m: nat := if n < 0 then -n else n;
    var digits := Numeral(m, 10);
    NumeralRoundTrip(m, 10);
    if n < 0 {
      assert s == "-" + digits && s[1..] == digits;
    } else {
      assert s == digits && s[0] != '-';
    }
  }

  /** `%x`: lower-case hexadecimal without leading zeros. */
  function Hex(n: nat): (s: string)
    ensures 1 <= |s| && forall i :: 0 <= i < |s| ==> IsDigit(s[i], 16)
    ensures s[0] == '0' <==> n == 0
  {
    Numeral(n, 16)
  }

  /** `%02x` for a value below 0x100: exactly two lower-case hex digits. */
  function Hex2(n: nat): (s: string)
    requires n < 0x100
    ensures |s| == 2 && IsDigit(s[0], 16) && IsDigit(s[1], 16)
  {
    [Digit(n / 16), Digit(n % 16)]
  }

  /** `%x` is read back exactly. */
  lemma {:induction false} HexRoundTrip(n: nat)
    ensures NumeralValue(Hex(n), 16) == n
  {
    NumeralRoundTrip(n, 16);
  }

  /** `%02x` is read back exactly. */
  lemma {:induction false} Hex2RoundTrip(n: nat)
    requires n < 0x100
    ensures NumeralValue(Hex2(n), 16) == n
  {
    var s := Hex2(n);
    assert s[..1] == [Digit(n / 16)] && NumeralValue([], 16) == 0;
  }
}
