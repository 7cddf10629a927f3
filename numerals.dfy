/** Rust's unsigned integers as text: the `Display` rendering the `{}` format uses, and the
    `from_str_radix` parsing that `str::parse::<u8>` and `u32::from_str_radix(_, 16)` perform. */
module Numerals {
  import opened Wrappers

  /** Rust's `u8`. */
  type u8 = x: int | 0 <= x < 256

  const U32_LIMIT: nat := 0x1_0000_0000

  predicate IsDecimalDigit(c: char)
  {
    '0' <= c <= '9'
  }

  predicate IsHexDigit(c: char)
  {
    '0' <= c <= '9' || 'a' <= c <= 'f' || 'A' <= c <= 'F'
  }

  /** `char::to_digit(16)`; on decimal digits it is also `char::to_digit(10)`. */
  function HexDigitValue(c: char): (d: nat)
    requires IsHexDigit(c)
    ensures d < 16
    ensures IsDecimalDigit(c) <==> d < 10
  {
    if '0' <= c <= '9' then (c as int - '0' as int)
    else if 'a' <= c <= 'f' then (c as int - 'a' as int) + 10
    else (c as int - 'A' as int) + 10
  }

  /** The digit `char::from_digit(d, 16)` writes: `0`-`9`, then lower-case `a`-`f`. */
  function DigitChar(d: nat): (c: char)
    requires d < 16
    ensures IsHexDigit(c) && HexDigitValue(c) == d
  {
    if d < 10 then ('0' as int + d) as char else ('a' as int + (d - 10)) as char
  }

  /** An unsigned integer written in `radix`, most significant digit first, without leading zeros. */
  function Digits(n: nat, radix: nat): (s: string)
    requires 2 <= radix <= 16
    decreases n
  {
    if n < radix then [DigitChar(n)] else Digits(n / radix, radix) + [DigitChar(n % radix)]
  }

  /** The `{}` rendering of an unsigned integer. */
  function Decimal(n: nat): string
  {
    Digits(n, 10)
  }

  /** The lower-case hexadecimal rendering (format spec `x`) of an unsigned integer. */
  function Hex(n: nat): string
  {
    Digits(n, 16)
  }

  predicate IsDigitIn(c: char, radix: nat)
  {
    IsHexDigit(c) && HexDigitValue(c) < radix
  }

  /** The value of a non-empty run of digits, accumulated left to right as `from_str_radix` does. */
  function DigitsValue(s: string, radix: nat): nat
    requires forall k :: 0 <= k < |s| ==> IsDigitIn(s[k], radix)
  {
    if |s| == 0 then 0
    else
      assert IsDigitIn(s[|s| - 1], radix);
      var v := DigitsValue(s[..|s| - 1], radix);
      MulMonotone(v, 0, radix);
      v * radix + HexDigitValue(s[|s| - 1])
  }

  /** `from_str_radix` for an unsigned type before its range check: an optional leading `+`, then at
      least one digit of the radix and nothing else. The empty string, a lone `+` and any other
      character (a `-` included, the type being unsigned) are errors. */
  function ParseUnsigned(s: string, radix: nat): (r: Option<nat>)
    ensures r.Some? ==> |s| > 0
  {
    var digits := if |s| > 0 && s[0] == '+' then s[1..] else s;
    if |digits| > 0 && forall k :: 0 <= k < |digits| ==> IsDigitIn(digits[k], radix) then
      Some(DigitsValue(digits, radix))
    else
      None
  }

  /** `str::parse::<u8>`: a decimal value that must fit in 0..=255. The unbounded accumulation
      followed by one range check agrees with Rust's step-by-step checked arithmetic, because the
      running value never decreases. */
  function ParseU8(s: string): (r: Option<u8>)
  {
    match ParseUnsigned(s, 10)
    case Some(n) => if n < 256 then Some(n) else None
    case None => None
  }

  /** `u32::from_str_radix(s, 16)`. */
  function ParseHexU32(s: string): (r: Option<nat>)
    ensures r.Some? ==> r.value < U32_LIMIT
  {
    match ParseUnsigned(s, 16)
    case Some(n) => if n < U32_LIMIT then Some(n) else None
    case None => None
  }

  /** `std::char::from_u32`: Unicode scalar values are the code points outside the surrogate
      range, which is exactly Dafny's `char`. */
  function CharFromU32(n: nat): (r: Option<char>)
    ensures r.Some? ==> r.value as int == n
    ensures r.None? <==> (0xD800 <= n < 0xE000 || n > 0x10FFFF)
  {
    if n < 0xD800 || 0xE000 <= n <= 0x10FFFF then Some(n as char) else None
  }

  /** A rendering is never empty, uses only digits of its radix, and has no leading zero. */
  lemma DigitsWellFormed(n: nat, radix: nat)
    requires 2 <= radix <= 16
    ensures |Digits(n, radix)| > 0
    ensures forall k :: 0 <= k < |Digits(n, radix)| ==> IsDigitIn(Digits(n, radix)[k], radix)
    ensures n > 0 ==> Digits(n, radix)[0] != '0'
  {
    DigitsInRadix(n, radix);
    DigitsLeading(n, radix);
  }

  lemma {:induction false} DigitsInRadix(n: nat, radix: nat)
    requires 2 <= radix <= 16
    ensures forall k :: 0 <= k < |Digits(n, radix)| ==> IsDigitIn(Digits(n, radix)[k], radix)
    decreases n
  {
    if n >= radix {
      DivShrinks(n, radix);
      DigitsInRadix(n / radix, radix);
      var prefix := Digits(n / radix, radix);
      var whole := prefix + [DigitChar(n % radix)];
      assert Digits(n, radix) == whole;
      forall k | 0 <= k < |prefix|
        ensures IsDigitIn(whole[k], radix)
      {
        assert whole[k] == prefix[k];
      }
    }
  }

  lemma {:induction false} DigitsLeading(n: nat, radix: nat)
    requires 2 <= radix <= 16
    ensures n > 0 ==> Digits(n, radix)[0] != '0'
    decreases n
  {
    if n >= radix {
      DivShrinks(n, radix);
      assert n / radix > 0;
      DigitsLeading(n / radix, radix);
      var prefix := Digits(n / radix, radix);
      assert Digits(n, radix)[0] == prefix[0];
    }
  }


  /** Reading a rendering back gives the number: `Digits` and `DigitsValue` are inverse. */
  lemma {:induction false} DigitsRoundTrip(n: nat, radix: nat)
    requires 2 <= radix <= 16
    ensures forall k :: 0 <= k < |Digits(n, radix)| ==> IsDigitIn(Digits(n, radix)[k], radix)
    ensures DigitsValue(Digits(n, radix), radix) == n
    decreases n
  {
    DigitsWellFormed(n, radix);
    var s := Digits(n, radix);
    if n >= radix {
      DivShrinks(n, radix);
      DigitsRoundTrip(n / radix, radix);
      var q, d := n / radix, n % radix;
      assert s[..|s| - 1] == Digits(q, radix);
      assert HexDigitValue(s[|s| - 1]) == d;
      calc {
        DigitsValue(s, radix);
        DigitsValue(s[..|s| - 1], radix) * radix + HexDigitValue(s[|s| - 1]);
        q * radix + d;
        { DivMod(n, radix); }
        n;
      }
    }
  }

  lemma DivShrinks(n: nat, radix: nat)
    requires 2 <= radix <= n
    ensures n / radix < n
  {
    var q := n / radix;
    DivMod(n, radix);
    if q >= n {
      MulMonotone(q, n, radix);
      MulMonotone(radix, 2, n);
      assert false;
    }
  }

  lemma MulMonotone(a: nat, b: nat, c: nat)
    requires a >= b
    ensures a * c >= b * c
  {
  }

  lemma DivMod(n: nat, radix: nat)
    requires radix > 0
    ensures n == (n / radix) * radix + n % radix
  {
  }

  /** The `{}` rendering consists of decimal digits, is never empty and has no leading zero. */
  lemma DecimalWellFormed(n: nat)
    ensures |Decimal(n)| > 0
    ensures forall k :: 0 <= k < |Decimal(n)| ==> IsDecimalDigit(Decimal(n)[k])
    ensures n > 0 ==> Decimal(n)[0] != '0'
  {
    DigitsWellFormed(n, 10);
  }

  /** Reading a `{}` rendering back gives the number. */
  lemma DecimalValue(n: nat)
    ensures forall k :: 0 <= k < |Decimal(n)| ==> IsDigitIn(Decimal(n)[k], 10)
    ensures DigitsValue(Decimal(n), 10) == n
  {
    DigitsRoundTrip(n, 10);
  }

  /** Round trip between the `{}` rendering of a `u8` and `str::parse::<u8>`. */
  lemma ParseU8Decimal(n: nat)
    ensures ParseU8(Decimal(n)) == if n < 256 then Some(n) else None
  {
    DecimalValue(n);
    DecimalWellFormed(n);
  }

  /** Different numbers render differently. */
  lemma DecimalInjective(a: nat, b: nat)
    requires Decimal(a) == Decimal(b)
    ensures a == b
  {
    DecimalValue(a);
    DecimalValue(b);
  }

  /** A `u8` renders as one to three digits. */
  lemma {:induction false} DecimalWidthU8(n: u8)
    ensures 1 <= |Decimal(n)| <= 3
    ensures n < 10 <==> |Decimal(n)| == 1
    ensures 100 <= n <==> |Decimal(n)| == 3
  {
    if n >= 10 {
      assert Decimal(n) == Decimal(n / 10) + [DigitChar(n % 10)];
      if n / 10 >= 10 {
        assert Decimal(n / 10) == Decimal(n / 100) + [DigitChar(n / 10 % 10)];
      }
    }
  }

  /** Round trip between the lower-case hexadecimal rendering of a `u32` and `u32::from_str_radix(_, 16)`. */
  lemma ParseHexU32Hex(n: nat)
    requires n < U32_LIMIT
    ensures ParseHexU32(Hex(n)) == Some(n)
  {
    DigitsRoundTrip(n, 16);
    DigitsWellFormed(n, 16);
  }

  /** Only values below 16 have a one-digit hexadecimal rendering. */
  lemma HexWidth(n: nat)
    ensures |Hex(n)| == 1 <==> n < 16
  {
    if n >= 16 {
      DigitsWellFormed(n / 16, 16);
    }
  }
}
