/** The string primitives of ECMAScript that the handlers rely on:
    the white-space set used by `String.prototype.trim` and `parseInt`,
    and the digit characters of radix 2..36. */
module JsStrings {

  /** WhiteSpace or LineTerminator code points (ECMAScript sections 12.2 and 12.3). */
  predicate IsWhiteSpace(c: char)
  {
    var n := c as int;
    n == 0x09 || n == 0x0A || n == 0x0B || n == 0x0C || n == 0x0D || n == 0x20
    || n == 0xA0 || n == 0x1680 || (0x2000 <= n <= 0x200A) || n == 0x2028 || n == 0x2029
    || n == 0x202F || n == 0x205F || n == 0x3000 || n == 0xFEFF
  }

  predicate AllWhiteSpace(s: string)
  {
    forall i :: 0 <= i < |s| ==> IsWhiteSpace(s[i])
  }

  /** Drops the leading white space (and, by TrimStartDropsWhiteSpace, nothing else). */
  function TrimStart(s: string): (r: string)
    ensures |r| <= |s| && r == s[|s| - |r|..]
    ensures r == [] <==> AllWhiteSpace(s)
    ensures r != [] ==> !IsWhiteSpace(r[0])
  {
    if s == [] || !IsWhiteSpace(s[0]) then s else TrimStart(s[1..])
  }

  lemma TrimStartKeeps(s: string)
    requires s == [] || !IsWhiteSpace(s[0])
    ensures TrimStart(s) == s
  {
  }

  lemma DigitIsNotWhiteSpace(c: char)
    requires '0' <= c <= '9'
    ensures !IsWhiteSpace(c)
  {
  }

  /** Drops the trailing white space (and, by TrimEndDropsWhiteSpace, nothing else). */
  function TrimEnd(s: string): (r: string)
    ensures |r| <= |s| && r == s[..|r|]
    ensures r == [] <==> AllWhiteSpace(s)
    ensures r != [] ==> !IsWhiteSpace(r[|r| - 1])
  {
    if s == [] || !IsWhiteSpace(s[|s| - 1]) then s else TrimEnd(s[..|s| - 1])
  }

  /** `String.prototype.trim`: the input with its leading and trailing
      white space removed (TrimIsSlice). */
  function Trim(s: string): (r: string)
    ensures r == [] <==> AllWhiteSpace(s)
    ensures r != [] ==> !IsWhiteSpace(r[0]) && !IsWhiteSpace(r[|r| - 1])
  {
    var t := TrimStart(s);
    assert t != [] ==> !AllWhiteSpace(t);
    TrimEnd(t)
  }

  /** Only white space is dropped before the result of `TrimStart`. */
  lemma {:induction false} TrimStartDropsWhiteSpace(s: string)
    ensures AllWhiteSpace(s[..|s| - |TrimStart(s)|])
  {
    if s != [] && IsWhiteSpace(s[0]) {
      var u := s[1..];
      TrimStartDropsWhiteSpace(u);
      var m := |u| - |TrimStart(u)|;
      assert TrimStart(s) == TrimStart(u);
      DroppedOneMore(s, m);
    } else {
      assert s[..0] == [];
    }
  }

  lemma DroppedOneMore(s: string, m: nat)
    requires s != [] && IsWhiteSpace(s[0]) && m < |s|
    requires AllWhiteSpace(s[1..][..m])
    ensures AllWhiteSpace(s[..m + 1])
  {
    var w, v := s[..m + 1], s[1..][..m];
    forall i | 0 <= i < |w| ensures IsWhiteSpace(w[i]) {
      if i > 0 {
        assert w[i] == v[i - 1];
      }
    }
  }

  /** Only white space is dropped after the result of `TrimEnd`. */
  lemma {:induction false} TrimEndDropsWhiteSpace(s: string)
    ensures AllWhiteSpace(s[|TrimEnd(s)|..])
  {
    if s != [] && IsWhiteSpace(s[|s| - 1]) {
      var p := s[..|s| - 1];
      TrimEndDropsWhiteSpace(p);
      var k := |TrimEnd(s)|;
      assert TrimEnd(s) == TrimEnd(p);
      forall i | 0 <= i < |s| - k ensures IsWhiteSpace(s[k..][i]) {
        if i < |s| - 1 - k {
          assert s[k..][i] == p[k..][i];
        }
      }
    } else {
      assert s[|s|..] == [];
    }
  }

  /** `Trim` keeps a slice of the input with only white space before and after it. */
  lemma TrimIsSlice(s: string)
    ensures exists i, j :: 0 <= i <= j <= |s| && Trim(s) == s[i..j] && AllWhiteSpace(s[..i]) && AllWhiteSpace(s[j..])
  {
    var t := TrimStart(s);
    TrimStartDropsWhiteSpace(s);
    TrimEndDropsWhiteSpace(t);
    SliceBetween(s, t, TrimEnd(t));
  }

  /** A prefix `r` of a suffix `t` of `s`, with only white space dropped on
      either side, is a slice of `s` with only white space around it. */
  lemma SliceBetween(s: string, t: string, r: string)
    requires |t| <= |s| && t == s[|s| - |t|..] && AllWhiteSpace(s[..|s| - |t|])
    requires |r| <= |t| && r == t[..|r|] && AllWhiteSpace(t[|r|..])
    ensures exists i, j :: 0 <= i <= j <= |s| && r == s[i..j] && AllWhiteSpace(s[..i]) && AllWhiteSpace(s[j..])
  {
    var i := |s| - |t|;
    var j := i + |r|;
    assert r == s[i..j];
    assert s[j..] == t[|r|..];
    assert 0 <= i <= j <= |s| && r == s[i..j] && AllWhiteSpace(s[..i]) && AllWhiteSpace(s[j..]);
  }

  /** The value of a character as a digit of radix up to 36 ('0'-'9', then
      'a'-'z' or 'A'-'Z'); 36 for every other character. */
  function CharDigit(c: char): (d: nat)
    ensures d <= 36
    ensures d < 10 <==> '0' <= c <= '9'
  {
    if '0' <= c <= '9' then c as int - '0' as int
    else if 'a' <= c <= 'z' then c as int - 'a' as int + 10
    else if 'A' <= c <= 'Z' then c as int - 'A' as int + 10
    else 36
  }

  predicate IsDigitIn(c: char, radix: nat)
  {
    CharDigit(c) < radix
  }

  predicate IsDecimalDigit(c: char)
  {
    '0' <= c <= '9'
  }

  /** The character of a decimal digit. */
  function DigitChar(d: nat): (c: char)
    requires d < 10
    ensures IsDecimalDigit(c) && CharDigit(c) == d
  {
    ('0' as int + d) as char
  }
}
