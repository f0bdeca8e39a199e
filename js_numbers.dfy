/** `parseInt` without a radix argument (ECMAScript section 19.2.5) and
    `Number.prototype.toString` for integral values. Numbers are exact
    integers here; the double rounding of digit strings longer than 15
    digits is not modelled. */
module JsNumbers {
  import opened JsStrings

  /** What `parseInt` returns: NaN or an integral number (-0 is folded into 0). */
  datatype Parsed = NaN | Int(value: int)

  /** The longest prefix of `s` made of digits of the given radix. */
  function DigitPrefix(s: string, radix: nat): (r: string)
    ensures |r| <= |s| && r == s[..|r|]
    ensures forall i :: 0 <= i < |r| ==> IsDigitIn(r[i], radix)
    ensures |r| < |s| ==> !IsDigitIn(s[|r|], radix)
  {
    if s == [] || !IsDigitIn(s[0], radix) then [] else [s[0]] + DigitPrefix(s[1..], radix)
  }

  /** The integer that a digit string denotes in the given radix. */
  function DigitsValue(d: string, radix: nat): (n: nat)
    decreases |d|
  {
    if d == [] then 0
    else DigitsValue(d[..|d| - 1], radix) * radix + (if CharDigit(d[|d| - 1]) < radix then CharDigit(d[|d| - 1]) else 0)
  }

  /** Reads the longest digit prefix of `d` in the given radix; NaN when there is none. */
  function ParseDigits(d: string, radix: nat): (r: Parsed)
    ensures r.NaN? <==> d == [] || !IsDigitIn(d[0], radix)
    ensures r.Int? ==> r.value >= 0
  {
    var p := DigitPrefix(d, radix);
    if p == [] then NaN else Int(DigitsValue(p, radix))
  }

  /** The part after the sign: a `0x`/`0X` prefix selects radix 16, otherwise radix 10. */
  function ParseUnsigned(u: string): (r: Parsed)
    ensures r.Int? ==> r.value >= 0
  {
    if |u| >= 2 && u[0] == '0' && (u[1] == 'x' || u[1] == 'X') then ParseDigits(u[2..], 16)
    else ParseDigits(u, 10)
  }

  /** An optional `-` or `+` before the digits. */
  function ParseSigned(t: string): (r: Parsed)
  {
    if |t| > 0 && t[0] == '-' then
      (match ParseUnsigned(t[1..]) case NaN => NaN case Int(v) => Int(-v))
    else if |t| > 0 && t[0] == '+' then ParseUnsigned(t[1..])
    else ParseUnsigned(t)
  }

  /** `parseInt(s)` with no radix: skip leading white space, take an optional
      sign, strip a `0x`/`0X` prefix (radix 16, otherwise 10) and read the
      longest digit prefix; no digits at all gives NaN. */
  function ParseInt(s: string): (r: Parsed)
  {
    ParseSigned(TrimStart(s))
  }

  /** Decimal digits of a natural number, most significant first. */
  function NatToString(n: nat): (r: string)
    ensures |r| > 0
    decreases n
  {
    if n < 10 then [DigitChar(n)] else NatToString(n / 10) + [DigitChar(n % 10)]
  }

  /** `String(n)` / `n.toString()` for an integral number. */
  function IntToString(n: int): (r: string)
  {
    if n < 0 then "-" + NatToString(-n) else NatToString(n)
  }

  /** A canonical positive decimal numeral: digits only, no leading zero. */
  predicate IsPositiveDecimal(s: string)
  {
    |s| > 0 && s[0] != '0' && forall i :: 0 <= i < |s| ==> IsDecimalDigit(s[i])
  }

  /** The digits of a natural number form a numeral with that value, and one
      without a leading zero when the number is positive. */
  lemma {:induction false} NatToStringShape(n: nat)
    ensures forall i :: 0 <= i < |NatToString(n)| ==> IsDecimalDigit(NatToString(n)[i])
    ensures DigitsValue(NatToString(n), 10) == n
    ensures n > 0 ==> IsPositiveDecimal(NatToString(n))
    decreases n
  {
    if n >= 10 {
      NatToStringShape(n / 10);
      var p := NatToString(n / 10);
      var r := NatToString(n);
      assert r == p + [DigitChar(n % 10)];
      assert r[..|r| - 1] == p;
      assert r[0] == p[0];
    }
  }

  /** Printing the value of a canonical numeral gives the numeral back. */
  lemma {:induction false} PositiveDecimalRoundTrip(s: string)
    requires IsPositiveDecimal(s)
    ensures DigitsValue(s, 10) > 0
    ensures NatToString(DigitsValue(s, 10)) == s
    decreases |s|
  {
    var n := DigitsValue(s, 10);
    var last := s[|s| - 1];
    if |s| == 1 {
      assert s[..0] == [];
      assert DigitsValue(s, 10) == DigitsValue(s[..0], 10) * 10 + CharDigit(last);
      assert n == CharDigit(last);
    } else {
      var p := s[..|s| - 1];
      assert IsPositiveDecimal(p) by {
        forall i | 0 <= i < |p| ensures IsDecimalDigit(p[i]) {
          assert p[i] == s[i];
        }
      }
      PositiveDecimalRoundTrip(p);
      var m := DigitsValue(p, 10);
      assert n == m * 10 + CharDigit(last);
      assert n / 10 == m && n % 10 == CharDigit(last);
      assert DigitChar(CharDigit(last)) == last;
    }
  }

  lemma {:induction false} DigitPrefixOfDigits(s: string)
    requires forall i :: 0 <= i < |s| ==> IsDecimalDigit(s[i])
    ensures DigitPrefix(s, 10) == s
  {
    if s != [] {
      DigitPrefixOfDigits(s[1..]);
    }
  }

  lemma ParseUnsignedPositiveDecimal(u: string)
    requires IsPositiveDecimal(u)
    ensures ParseUnsigned(u) == Int(DigitsValue(u, 10))
  {
    ParseUnsignedDecimal(u);
    DigitPrefixOfDigits(u);
  }

  /** `parseInt` reads a canonical positive numeral as its value. */
  lemma ParsePositiveDecimal(s: string)
    requires IsPositiveDecimal(s)
    ensures ParseInt(s) == Int(DigitsValue(s, 10))
  {
    DigitIsNotWhiteSpace(s[0]);
    ParseIntUnsigned(s);
    ParseUnsignedPositiveDecimal(s);
  }

  lemma ParseOneDigit(c: char)
    requires IsDecimalDigit(c)
    ensures ParseInt([c]) == Int(CharDigit(c))
  {
    ParseIntDecimal([c]);
    ParseDigitsOne(c);
  }

  lemma ParseDigitsOne(c: char)
    requires IsDecimalDigit(c)
    ensures ParseDigits([c], 10) == Int(CharDigit(c))
  {
    DigitPrefixOfDigits([c]);
    assert [c][..0] == [];
    assert DigitsValue([c], 10) == DigitsValue([c][..0], 10) * 10 + CharDigit(c);
  }

  lemma ParseNegative(n: int)
    requires n < 0
    ensures ParseInt(IntToString(n)) == Int(n)
  {
    var u := NatToString(-n);
    NatToStringShape(-n);
    ParseUnsignedPositiveDecimal(u);
    assert ParseUnsigned(u) == Int(-n);
    ParseIntSign(u);
    assert IntToString(n) == "-" + u;
  }

  /** `parseInt` inverts `toString` on every integer. */
  lemma ParseIntToString(n: int)
    ensures ParseInt(IntToString(n)) == Int(n)
  {
    if n == 0 {
      ParseOneDigit('0');
    } else if n > 0 {
      NatToStringShape(n);
      ParsePositiveDecimal(NatToString(n));
    } else {
      ParseNegative(n);
    }
  }

  /** Leading white space is skipped. */
  lemma ParseIntSkipsWhiteSpace(c: char, s: string)
    requires IsWhiteSpace(c)
    ensures ParseInt([c] + s) == ParseInt(s)
  {
    assert ([c] + s)[1..] == s;
  }

  /** A `+` sign is dropped and a `-` sign negates what follows. */
  lemma ParseIntSign(u: string)
    ensures ParseInt("+" + u) == ParseUnsigned(u)
    ensures ParseUnsigned(u).NaN? ==> ParseInt("-" + u) == NaN
    ensures ParseUnsigned(u).Int? ==> ParseInt("-" + u) == Int(-ParseUnsigned(u).value)
  {
    var plus, minus := "+" + u, "-" + u;
    assert plus[0] == '+' && plus[1..] == u;
    assert minus[0] == '-' && minus[1..] == u;
    TrimStartKeeps(plus);
    TrimStartKeeps(minus);
  }

  /** A run of decimal digits, leading zeros included, is read as its decimal
      value, and reading stops at the first character that is not a digit:
      "007" reads as 7, "5x" as 5 and "1.5" as 1. The one exception is a
      lone `0` followed by `x` or `X`, which starts a hexadecimal numeral. */
  lemma ParseIntStopsAtNonDigit(d: string, rest: string)
    requires |d| > 0 && forall i :: 0 <= i < |d| ==> IsDecimalDigit(d[i])
    requires rest == [] || !IsDecimalDigit(rest[0])
    requires d == "0" && rest != [] ==> rest[0] != 'x' && rest[0] != 'X'
    ensures ParseInt(d + rest) == Int(DigitsValue(d, 10))
  {
    var s := d + rest;
    DigitPrefixStops(d, rest);
    assert s[0] == d[0];
    NoHexPrefix(d, rest);
    ParseIntDecimal(s);
  }

  lemma NoHexPrefix(d: string, rest: string)
    requires |d| > 0 && forall i :: 0 <= i < |d| ==> IsDecimalDigit(d[i])
    requires d == "0" && rest != [] ==> rest[0] != 'x' && rest[0] != 'X'
    ensures !(|d + rest| >= 2 && (d + rest)[0] == '0' && ((d + rest)[1] == 'x' || (d + rest)[1] == 'X'))
  {
    var s := d + rest;
    if |s| >= 2 && s[0] == '0' {
      if |d| == 1 { assert d == "0"; assert s[1] == rest[0]; } else { assert s[1] == d[1]; }
    }
  }

  /** Text that starts with a digit and no hexadecimal prefix is read in radix 10. */
  lemma ParseIntDecimal(s: string)
    requires |s| > 0 && IsDecimalDigit(s[0])
    requires !(|s| >= 2 && s[0] == '0' && (s[1] == 'x' || s[1] == 'X'))
    ensures ParseInt(s) == ParseDigits(s, 10)
  {
    DigitIsNotWhiteSpace(s[0]);
    ParseIntUnsigned(s);
    ParseUnsignedDecimal(s);
  }

  /** Without leading white space or a sign, `parseInt` reads the text as an unsigned numeral. */
  lemma ParseIntUnsigned(s: string)
    requires s == [] || (!IsWhiteSpace(s[0]) && s[0] != '-' && s[0] != '+')
    ensures ParseInt(s) == ParseUnsigned(s)
  {
    TrimStartKeeps(s);
  }

  lemma ParseUnsignedDecimal(u: string)
    requires !(|u| >= 2 && u[0] == '0' && (u[1] == 'x' || u[1] == 'X'))
    ensures ParseUnsigned(u) == ParseDigits(u, 10)
  {
  }

  lemma {:induction false} DigitPrefixStops(d: string, rest: string)
    requires forall i :: 0 <= i < |d| ==> IsDecimalDigit(d[i])
    requires rest == [] || !IsDecimalDigit(rest[0])
    ensures DigitPrefix(d + rest, 10) == d
  {
    if d != [] {
      assert (d + rest)[1..] == d[1..] + rest;
      DigitPrefixStops(d[1..], rest);
    } else {
      assert d + rest == rest;
    }
  }

  /** Text that starts with anything other than white space, a sign or a
      digit has no number in it. */
  lemma ParseIntNaN(s: string)
    requires s == [] || (!IsWhiteSpace(s[0]) && s[0] != '-' && s[0] != '+' && !IsDecimalDigit(s[0]))
    ensures ParseInt(s) == NaN
  {
    ParseIntUnsigned(s);
    ParseUnsignedDecimal(s);
    assert s == [] || !IsDigitIn(s[0], 10);
    assert ParseDigits(s, 10).NaN?;
  }
}
