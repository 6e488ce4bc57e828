/** Decimal conversions: PHP's `(int)` cast and `is_numeric`, JavaScript's
    `parseInt`, and the decimal rendering of an integer. */
module Numbers {
  import opened Wrappers
  import opened Text

  predicate IsDigit(c: char) { '0' <= c <= '9' }

  predicate AllDigits(s: string) { forall i | 0 <= i < |s| :: IsDigit(s[i]) }

  function DigitValue(c: char): (d: nat)
    requires IsDigit(c)
    ensures d < 10
  {
    c as int - '0' as int
  }

  function DigitChar(d: nat): (c: char)
    requires d < 10
    ensures IsDigit(c) && DigitValue(c) == d
  {
    ('0' as int + d) as char
  }

  /** The whitespace PHP skips in front of a numeric string: " \t\n\r\v\f". */
  predicate IsNumSpace(c: char) {
    c == ' ' || c == '\t' || c == '\n' || c == '\r' || c == '\U{0B}' || c == '\U{0C}'
  }

  /** Length of the leading run of characters satisfying `p`. */
  function RunLength(s: string, p: char -> bool): (n: nat)
    ensures n <= |s|
    ensures forall i | 0 <= i < n :: p(s[i])
    ensures n < |s| ==> !p(s[n])
  {
    if |s| > 0 && p(s[0]) then 1 + RunLength(s[1..], p) else 0
  }

  function DigitRun(s: string): (n: nat)
    ensures n <= |s| && AllDigits(s[..n])
    ensures n < |s| ==> !IsDigit(s[n])
  {
    RunLength(s, IsDigit)
  }

  /** Value of a digit string, most significant digit first. */
  function Value(ds: string): nat
    requires AllDigits(ds)
  {
    if ds == [] then 0 else Value(ds[..|ds| - 1]) * 10 + DigitValue(ds[|ds| - 1])
  }

  predicate IsHex(c: char) {
    ('0' <= c <= '9') || ('a' <= c <= 'f') || ('A' <= c <= 'F')
  }

  function HexValue(c: char): (n: nat)
    requires IsHex(c)
    ensures n < 16
  {
    if '0' <= c <= '9' then c as int - '0' as int
    else if 'a' <= c <= 'f' then c as int - 'a' as int + 10
    else c as int - 'A' as int + 10
  }

  /** Value of a string of hex digits, most significant digit first. */
  function HexNumber(hs: string): nat
    requires forall i | 0 <= i < |hs| :: IsHex(hs[i])
  {
    if hs == [] then 0 else HexNumber(hs[..|hs| - 1]) * 16 + HexValue(hs[|hs| - 1])
  }

  /** Splits an optional leading `+` or `-` off `t`. */
  function Sign(t: string): (r: (bool, string))
    ensures r.1 == t || (|t| > 0 && (t[0] == '+' || t[0] == '-') && r.1 == t[1..])
    ensures r.0 ==> |t| > 0 && t[0] == '-'
  {
    if |t| > 0 && (t[0] == '+' || t[0] == '-') then (t[0] == '-', t[1..]) else (false, t)
  }

  /** PHP's `(int)` cast of a string: optional whitespace and sign, then the
      leading run of digits; no digits at all gives 0. */
  function IntVal(s: string): int
  {
    var t := s[RunLength(s, IsNumSpace)..];
    var (neg, u) := Sign(t);
    var n: int := Value(u[..DigitRun(u)]);
    if neg then -n else n
  }

  /** JavaScript's `parseInt(s, 10)`: like the PHP cast, but with JavaScript
      whitespace and `NaN` (here `None`) when no digit follows. */
  function ParseInt(s: string): Option<int>
  {
    var t := s[RunLength(s, IsJsSpace)..];
    var (neg, u) := Sign(t);
    var k := DigitRun(u);
    if k == 0 then None
    else
      var n: int := Value(u[..k]);
      Some(if neg then -n else n)
  }

  /** A `0x` or `0X` prefix. */
  predicate HexPrefixed(u: string) {
    |u| >= 2 && u[0] == '0' && (u[1] == 'x' || u[1] == 'X')
  }

  /** JavaScript's `parseInt(s)` without a radix: after the whitespace and
      the sign, a `0x` or `0X` prefix selects base 16; otherwise base 10. */
  function ParseIntAuto(s: string): (r: Option<int>)
    ensures !HexPrefixed(Sign(s[RunLength(s, IsJsSpace)..]).1) ==> r == ParseInt(s)
  {
    var t := s[RunLength(s, IsJsSpace)..];
    var (neg, u) := Sign(t);
    if HexPrefixed(u) then
      var h := u[2..];
      var k := RunLength(h, IsHex);
      if k == 0 then None
      else
        var n: int := HexNumber(h[..k]);
        Some(if neg then -n else n)
    else ParseInt(s)
  }

  /** PHP 8's `is_numeric` on a string in its plain decimal forms:
      [whitespace] [sign] (digits [. digits] | . digits) [whitespace]. */
  predicate IsNumeric(s: string) {
    var t := s[RunLength(s, IsNumSpace)..];
    var u := Sign(t).1;
    var d1 := DigitRun(u);
    var v := u[d1..];
    if |v| > 0 && v[0] == '.' then
      var d2 := DigitRun(v[1..]);
      d1 + d2 > 0 && RunLength(v[1 + d2..], IsNumSpace) == |v| - 1 - d2
    else
      d1 > 0 && RunLength(v, IsNumSpace) == |v|
  }

  /** Decimal digits of a natural number, without leading zeros. */
  function NatDigits(n: nat): (s: string)
    ensures |s| > 0 && AllDigits(s) && Value(s) == n
    ensures s[0] == '0' ==> n == 0
    ensures n == 0 ==> s == "0"
  {
    if n < 10 then [DigitChar(n)]
    else
      var s := NatDigits(n / 10) + [DigitChar(n % 10)];
      assert s[..|s| - 1] == NatDigits(n / 10);
      s
  }

  /** The decimal rendering of an integer, as PHP and JavaScript print it. */
  function Show(n: int): string {
    if n < 0 then "-" + NatDigits(-n) else NatDigits(n)
  }

  lemma DigitRunOfDigits(s: string)
    requires AllDigits(s)
    ensures DigitRun(s) == |s|
  {
  }

  /** The `(int)` cast reads back the number `Show` printed. */
  lemma IntValShow(n: int)
    ensures IntVal(Show(n)) == n
  {
    var s := Show(n);
    var m := if n < 0 then -n else n;
    assert !IsNumSpace(s[0]);
    assert RunLength(s, IsNumSpace) == 0;
    assert s[0..] == s;
    DigitRunOfDigits(NatDigits(m));
    assert NatDigits(m)[..|NatDigits(m)|] == NatDigits(m);
    if n < 0 {
      assert s[1..] == NatDigits(m);
    }
  }

  /** `parseInt` reads back the number `Show` printed. */
  lemma ParseIntShow(n: int)
    ensures ParseInt(Show(n)) == Some(n)
  {
    var s := Show(n);
    var m := if n < 0 then -n else n;
    assert !IsJsSpace(s[0]);
    assert RunLength(s, IsJsSpace) == 0;
    assert s[0..] == s;
    DigitRunOfDigits(NatDigits(m));
    assert NatDigits(m)[..|NatDigits(m)|] == NatDigits(m);
    if n < 0 {
      assert s[1..] == NatDigits(m);
    }
  }

  /** The radix-free `parseInt` also reads back the number `Show` printed:
      a printed integer never carries a `0x` prefix. */
  lemma ParseIntAutoShow(n: int)
    ensures ParseIntAuto(Show(n)) == Some(n)
  {
    var s := Show(n);
    var m := if n < 0 then -n else n;
    assert RunLength(s, IsJsSpace) == 0 by { assert !IsJsSpace(s[0]); }
    assert s[0..] == s;
    var u := Sign(s).1;
    assert u == NatDigits(m) by {
      if n < 0 { assert s[1..] == NatDigits(m); }
    }
    assert !HexPrefixed(u) by {
      assert u[0] == '0' ==> m == 0;
    }
    ParseIntShow(n);
  }

  /** The two readings part on a hexadecimal prefix: `"0x14"` is 20 without a
      radix and 0 with radix 10. */
  lemma HexPrefixCounts()
    ensures ParseIntAuto("0x14") == Some(20)
    ensures ParseInt("0x14") == Some(0)
  {
    var s := "0x14";
    assert RunLength(s, IsJsSpace) == 0 by { assert !IsJsSpace(s[0]); }
    assert s[0..] == s;
    assert Sign(s).1 == s;
    var h := s[2..];
    assert h == "14";
    assert RunLength(h, IsHex) == 2 by {
      assert RunLength(h[2..], IsHex) == 0;
      assert h[1..][1..] == h[2..];
    }
    assert h[..2] == "14";
    assert HexNumber("14"[..1]) == 1 by { assert "14"[..1] == "1"; assert "1"[..0] == ""; }
    assert DigitRun(s) == 1 by { assert s[1..][0] == 'x'; }
    assert s[..1] == "0";
    assert "0"[..0] == "";
  }

  /** Every printed integer passes `is_numeric`. */
  lemma ShowIsNumeric(n: int)
    ensures IsNumeric(Show(n))
  {
    var s := Show(n);
    var m := if n < 0 then -n else n;
    assert RunLength(s, IsNumSpace) == 0;
    assert s[0..] == s;
    DigitRunOfDigits(NatDigits(m));
    if n < 0 {
      assert s[1..] == NatDigits(m);
    }
  }

  /** PHP's `empty()` holds of a printed integer exactly when it is zero. */
  lemma ShowEmptyIffZero(n: int)
    ensures PhpEmpty(Show(n)) <==> n == 0
  {
    if n < 0 {
      assert Show(n)[0] == '-';
    } else if PhpEmpty(Show(n)) {
      assert Show(n)[0] == '0';
    }
  }
}
