/**
  Decimal rendering of unsigned numbers as printf's %u and %0Nd and a
  stream's operator<< produce them, with the parse that reverses it, and
  the text a "%s" conversion takes from a std::string's c_str().
*/
module Decimal {

  predicate IsDigit(c: char)
  {
    '0' <= c <= '9'
  }

  predicate AllDigits(s: string)
  {
    forall i | 0 <= i < |s| :: IsDigit(s[i])
  }

  function DigitChar(d: nat): (c: char)
    requires d < 10
    ensures IsDigit(c)
  {
    ('0' as int + d) as char
  }

  function DigitValue(c: char): (d: nat)
    requires IsDigit(c)
    ensures d < 10
  {
    c as int - '0' as int
  }

  /** The shortest decimal rendering of `n` (printf "%u"). */
  function NatToString(n: nat): (s: string)
    ensures 1 <= |s|
    decreases n
  {
    if n < 10 then [DigitChar(n)] else NatToString(n / 10) + [DigitChar(n % 10)]
  }

  /** The value of a string of decimal digits; the empty string reads as 0. */
  function ParseDecimal(s: string): nat
    requires AllDigits(s)
  {
    if s == [] then 0 else 10 * ParseDecimal(s[..|s| - 1]) + DigitValue(s[|s| - 1])
  }

  function Zeros(n: nat): (z: string)
    ensures |z| == n
    ensures forall i | 0 <= i < n :: z[i] == '0'
  {
    seq(n, _ => '0')
  }

  /** Left padding with zeros up to `width` characters (printf "%0Nd"). */
  function ZeroPad(s: string, width: nat): (r: string)
    ensures |r| == if |s| >= width then |s| else width
  {
    if |s| >= width then s else Zeros(width - |s|) + s
  }

  /** printf "%0Nd" of a non-negative value. */
  function PadDecimal(n: nat, width: nat): string
  {
    ZeroPad(NatToString(n), width)
  }

  /** The rendering holds only digits and has no leading zero except for 0 itself. */
  lemma {:induction false} NatToStringShape(n: nat)
    ensures AllDigits(NatToString(n))
    ensures n >= 10 ==> NatToString(n)[0] != '0'
    ensures n < 10 <==> |NatToString(n)| == 1
    decreases n
  {
    if n >= 10 {
      NatToStringShape(n / 10);
      var s := NatToString(n / 10);
      assert NatToString(n) == s + [DigitChar(n % 10)];
      if n / 10 < 10 {
        assert s == [DigitChar(n / 10)];
        assert s[0] != '0';
      }
    }
  }

  /** Parsing the rendering gives the number back. */
  lemma {:induction false} ParseNatToString(n: nat)
    ensures AllDigits(NatToString(n))
    ensures ParseDecimal(NatToString(n)) == n
    decreases n
  {
    NatToStringShape(n);
    if n >= 10 {
      ParseNatToString(n / 10);
      var s := NatToString(n);
      assert s[..|s| - 1] == NatToString(n / 10);
    }
  }

  /** Equal prefixes can be cancelled. */
  lemma CancelPrefix(p: string, a: string, b: string)
    requires p + a == p + b
    ensures a == b
  {
    assert a == (p + a)[|p|..];
    assert b == (p + b)[|p|..];
  }

  /** Two numbers with the same rendering are equal. */
  lemma NatToStringInjective(m: nat, n: nat)
    requires NatToString(m) == NatToString(n)
    ensures m == n
  {
    ParseNatToString(m);
    ParseNatToString(n);
  }

  /** Leading zeros do not change the value read back. */
  lemma {:induction false} ParseLeadingZeros(k: nat, s: string)
    requires AllDigits(s)
    ensures AllDigits(Zeros(k) + s)
    ensures ParseDecimal(Zeros(k) + s) == ParseDecimal(s)
    decreases |s|, k
  {
    var t := Zeros(k) + s;
    if s == [] {
      assert t == Zeros(k);
      if k > 0 {
        assert t[..|t| - 1] == Zeros(k - 1) + [];
        ParseLeadingZeros(k - 1, []);
      }
    } else {
      assert t[..|t| - 1] == Zeros(k) + s[..|s| - 1];
      ParseLeadingZeros(k, s[..|s| - 1]);
    }
  }

  /** A zero-padded rendering still reads back as the number, and is at least `width` long. */
  lemma ParsePadDecimal(n: nat, width: nat)
    ensures AllDigits(PadDecimal(n, width))
    ensures ParseDecimal(PadDecimal(n, width)) == n
    ensures |PadDecimal(n, width)| >= width
  {
    ParseNatToString(n);
    var s := NatToString(n);
    if |s| < width {
      ParseLeadingZeros(width - |s|, s);
    }
  }

  /** Below 10^width the padded rendering is exactly `width` characters. */
  lemma {:induction false} NatToStringLength(n: nat, width: nat)
    requires 1 <= width
    requires n < Pow10(width)
    ensures |NatToString(n)| <= width
    decreases width
  {
    if n >= 10 {
      assert width > 1;
      NatToStringLength(n / 10, width - 1);
    }
  }

  /** From 10^width on the rendering is longer than `width` characters. */
  lemma {:induction false} NatToStringLong(n: nat, width: nat)
    requires n >= Pow10(width)
    ensures |NatToString(n)| > width
    decreases width
  {
    if width > 0 {
      NatToStringLong(n / 10, width - 1);
    }
  }

  function Pow10(k: nat): (r: nat)
    ensures r >= 1
  {
    if k == 0 then 1 else 10 * Pow10(k - 1)
  }

  /**
    What c_str() hands to a C routine such as sprintf's "%s" or a
    std::string constructor: everything before the first NUL.
  */
  function CPath(s: string): (r: string)
    ensures '\0' !in r && r <= s
    ensures |r| < |s| ==> s[|r|] == '\0'
  {
    if s == [] || s[0] == '\0' then []
    else [s[0]] + CPath(s[1..])
  }

  /** A string without NUL passes through c_str() whole. */
  lemma {:induction false} CPathWhole(s: string)
    requires '\0' !in s
    ensures CPath(s) == s
  {
    if s != [] {
      CPathWhole(s[1..]);
      assert s == [s[0]] + s[1..];
    }
  }
}
