/** Character-level string helpers with the exact semantics of the PHP and
    JavaScript built-ins the registration code relies on. */
module Text {
  import opened Wrappers

  /** The characters PHP's `trim()` strips by default: " \t\n\r\0\x0B". */
  predicate IsPhpSpace(c: char) {
    c == ' ' || c == '\t' || c == '\n' || c == '\r' || c == '\0' || c == '\U{0B}'
  }

  /** The characters matched by `\s` in a JavaScript regular expression. */
  predicate IsJsSpace(c: char) {
    || c == ' ' || c == '\t' || c == '\n' || c == '\U{0B}' || c == '\U{0C}' || c == '\r'
    || c == '\U{A0}' || c == '\U{1680}' || ('\U{2000}' <= c <= '\U{200A}')
    || c == '\U{2028}' || c == '\U{2029}' || c == '\U{202F}' || c == '\U{205F}'
    || c == '\U{3000}' || c == '\U{FEFF}'
  }

  /** PHP's `empty()` applied to a string: true for "" and for "0". */
  predicate PhpEmpty(s: string) {
    s == "" || s == "0"
  }

  /** Length of the leading run of PHP whitespace. */
  function LeadingSpaces(s: string): (n: nat)
    ensures n <= |s|
    ensures forall i | 0 <= i < n :: IsPhpSpace(s[i])
    ensures n < |s| ==> !IsPhpSpace(s[n])
  {
    if |s| > 0 && IsPhpSpace(s[0]) then 1 + LeadingSpaces(s[1..]) else 0
  }

  /** `ltrim($s)`: drops the leading run of PHP whitespace. */
  function TrimStart(s: string): (r: string)
    ensures r == s[LeadingSpaces(s)..]
  {
    if |s| > 0 && IsPhpSpace(s[0]) then TrimStart(s[1..]) else s
  }

  /** `rtrim($s)`: drops the trailing run of PHP whitespace. */
  function TrimEnd(s: string): (r: string)
    ensures |r| <= |s| && r == s[..|r|]
    ensures forall i | |r| <= i < |s| :: IsPhpSpace(s[i])
    ensures |r| > 0 ==> !IsPhpSpace(r[|r| - 1])
  {
    if |s| > 0 && IsPhpSpace(s[|s| - 1]) then TrimEnd(s[..|s| - 1]) else s
  }

  /** `trim($s)`. */
  function Trim(s: string): (r: string)
    ensures |r| > 0 ==> !IsPhpSpace(r[0]) && !IsPhpSpace(r[|r| - 1])
    ensures LeadingSpaces(s) + |r| <= |s| && r == s[LeadingSpaces(s)..LeadingSpaces(s) + |r|]
    ensures forall i | LeadingSpaces(s) + |r| <= i < |s| :: IsPhpSpace(s[i])
  {
    TrimEnd(TrimStart(s))
  }

  /** A string already free of surrounding whitespace is left alone by `trim`. */
  lemma TrimOfTrimmed(s: string)
    requires |s| > 0 ==> !IsPhpSpace(s[0]) && !IsPhpSpace(s[|s| - 1])
    ensures Trim(s) == s
  {
  }

  /** Whitespace around a word is exactly what `trim` removes. */
  lemma TrimPadded(a: string, w: string, b: string)
    requires forall i | 0 <= i < |a| :: IsPhpSpace(a[i])
    requires forall i | 0 <= i < |b| :: IsPhpSpace(b[i])
    requires |w| > 0 && !IsPhpSpace(w[0]) && !IsPhpSpace(w[|w| - 1])
    ensures Trim(a + w + b) == w
  {
    var s := a + w + b;
    var n := LeadingSpaces(s);
    assert s[|a|] == w[0];
    assert n == |a|;
    assert s[|a| + |w| - 1] == w[|w| - 1];
    assert s[|a|..|a| + |w|] == w;
  }

  lemma TrimIdempotent(s: string)
    ensures Trim(Trim(s)) == Trim(s)
  {
    TrimOfTrimmed(Trim(s));
  }

  /** ASCII lower-casing (`strtolower` / `toLowerCase` on the ASCII range). */
  function LowerChar(c: char): (r: char)
    ensures 'A' <= c <= 'Z' ==> 'a' <= r <= 'z'
    ensures !('A' <= c <= 'Z') ==> r == c
  {
    if 'A' <= c <= 'Z' then (c as int - 'A' as int + 'a' as int) as char else c
  }

  function Lower(s: string): (r: string)
    ensures |r| == |s|
    ensures forall i | 0 <= i < |s| :: r[i] == LowerChar(s[i])
  {
    if s == [] then [] else [LowerChar(s[0])] + Lower(s[1..])
  }

  /** Position of the first occurrence of `c` (PHP `strpos`, JS `indexOf`). */
  function IndexOf(s: string, c: char): (r: Option<nat>)
    ensures r.None? <==> c !in s
    ensures r.Some? ==> r.value < |s| && s[r.value] == c && c !in s[..r.value]
  {
    if s == [] then None
    else if s[0] == c then Some(0)
    else
      match IndexOf(s[1..], c)
      case None => None
      case Some(k) =>
        assert s[..k + 1] == [s[0]] + s[1..][..k];
        Some(k + 1)
  }

  /** `explode($c, $s, 2)` on a string that contains `c`: split at the first occurrence only. */
  function SplitFirst(s: string, c: char): (r: Option<(string, string)>)
    ensures r.None? <==> c !in s
    ensures r.Some? ==> s == r.value.0 + [c] + r.value.1 && c !in r.value.0
  {
    match IndexOf(s, c)
    case None => None
    case Some(k) =>
      assert s == s[..k] + [c] + s[k + 1..];
      Some((s[..k], s[k + 1..]))
  }

  /** Replaces every occurrence of the character `c` by the string `rep`
      (JavaScript `s.replace(/c/g, rep)` for a single-character pattern). */
  function ReplaceAll(s: string, c: char, rep: string): (r: string)
    ensures c !in s ==> r == s
  {
    if s == [] then []
    else (if s[0] == c then rep else [s[0]]) + ReplaceAll(s[1..], c, rep)
  }

  lemma {:induction false} ReplaceAllAppend(a: string, b: string, c: char, rep: string)
    ensures ReplaceAll(a + b, c, rep) == ReplaceAll(a, c, rep) + ReplaceAll(b, c, rep)
  {
    if a == [] {
      assert a + b == b;
    } else {
      assert (a + b)[0] == a[0];
      assert (a + b)[1..] == a[1..] + b;
      ReplaceAllAppend(a[1..], b, c, rep);
    }
  }
}
