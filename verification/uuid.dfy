/** The registration-token check: the case-insensitive pattern
    xxxxxxxx-xxxx-4xxx-[89ab]xxx-xxxxxxxxxxxx, the textual form of a version-4
    UUID (section 5.4 of RFC 9562: version nibble 4, variant bits 10). */
module Uuid {
  import opened Text
  import opened Numbers

  function HexDigit(n: nat): (c: char)
    requires n < 16
    ensures IsHex(c) && HexValue(c) == n && LowerChar(c) == c
  {
    if n < 10 then ('0' as int + n) as char else ('a' as int + n - 10) as char
  }

  lemma HexDigitOfValue(c: char)
    requires IsHex(c)
    ensures HexDigit(HexValue(c)) == LowerChar(c)
  {
  }

  /** Positions of the four hyphens in the 36-character form. */
  predicate IsDash(p: int) { p == 8 || p == 13 || p == 18 || p == 23 }

  /** Number of hyphens in front of position `p`. */
  function DashesBefore(p: int): nat {
    if p < 9 then 0 else if p < 14 then 1 else if p < 19 then 2 else if p < 24 then 3 else 4
  }

  /** Position of the `q`-th hex digit (0 <= q < 32) in the 36-character form. */
  function DigitPos(q: nat): (p: nat)
    ensures !IsDash(p) && p - DashesBefore(p) == q
  {
    if q < 8 then q else if q < 12 then q + 1 else if q < 16 then q + 2 else if q < 20 then q + 3 else q + 4
  }

  /** The token pattern, character by character: hex digits in either case,
      hyphens in the four separator positions, `4` at position 14 and one of
      `89abAB` at position 19. This is the JavaScript test (`$` = end of input). */
  predicate IsV4Token(t: string) {
    && |t| == 36
    && (forall p | 0 <= p < 36 && IsDash(p) :: t[p] == '-')
    && (forall p | 0 <= p < 36 && !IsDash(p) :: IsHex(t[p]))
    && t[14] == '4'
    && t[19] in "89abAB"
  }

  /** PHP's `preg_match` with the same pattern: `$` also matches in front of a
      final newline, so one trailing "\n" is tolerated. */
  predicate IsV4TokenPhp(t: string) {
    IsV4Token(t) || (|t| > 0 && t[|t| - 1] == '\n' && IsV4Token(t[..|t| - 1]))
  }

  predicate IsOctets(u: seq<nat>) { |u| == 16 && forall k | 0 <= k < 16 :: u[k] < 256 }

  /** A version-4 UUID: version nibble 4 in octet 6, variant bits 10 in octet 8. */
  predicate IsVersion4(u: seq<nat>) {
    IsOctets(u) && u[6] / 16 == 4 && u[8] / 64 == 2
  }

  /** The `q`-th hex digit (high nibble first) of an octet sequence. */
  function Nibble(u: seq<nat>, q: nat): (n: nat)
    requires IsOctets(u) && q < 32
    ensures n < 16
  {
    if q % 2 == 0 then u[q / 2] / 16 else u[q / 2] % 16
  }

  /** The canonical lower-case textual form of sixteen octets. */
  function Render(u: seq<nat>): (t: string)
    requires IsOctets(u)
    ensures |t| == 36
  {
    seq(36, p requires 0 <= p < 36 =>
      if IsDash(p) then '-' else HexDigit(Nibble(u, p - DashesBefore(p))))
  }

  /** The octets a token spells, reading the hex digits case-insensitively. */
  function Parse(t: string): (u: seq<nat>)
    requires IsV4Token(t)
    ensures IsOctets(u)
  {
    seq(16, k requires 0 <= k < 16 =>
      HexValue(t[DigitPos(2 * k)]) * 16 + HexValue(t[DigitPos(2 * k + 1)]))
  }

  /** Every version-4 UUID, written in its canonical form, passes the token check. */
  lemma RenderedV4Accepted(u: seq<nat>)
    requires IsVersion4(u)
    ensures IsV4Token(Render(u)) && IsV4TokenPhp(Render(u))
  {
    var t := Render(u);
    assert t[14] == HexDigit(u[6] / 16);
    var hi := u[8] / 16;
    assert 8 <= hi < 12;
    assert t[19] == HexDigit(hi);
    assert t[19] in "89abAB" by {
      if hi == 8 { assert t[19] == "89abAB"[0]; }
      else if hi == 9 { assert t[19] == "89abAB"[1]; }
      else if hi == 10 { assert t[19] == "89abAB"[2]; }
      else { assert t[19] == "89abAB"[3]; }
    }
  }

  /** Parsing the canonical form gives back the octets. */
  lemma ParseRender(u: seq<nat>)
    requires IsVersion4(u)
    ensures IsV4Token(Render(u))
    ensures Parse(Render(u)) == u
  {
    RenderedV4Accepted(u);
    var t := Render(u);
    forall k | 0 <= k < 16
      ensures Parse(t)[k] == u[k]
    {
      assert t[DigitPos(2 * k)] == HexDigit(u[k] / 16);
      assert t[DigitPos(2 * k + 1)] == HexDigit(u[k] % 16);
    }
  }

  lemma ParsedIsVersion4(t: string)
    requires IsV4Token(t)
    ensures IsVersion4(Parse(t))
  {
    var u := Parse(t);
    assert DigitPos(12) == 14 && DigitPos(13) == 15;
    assert DigitPos(16) == 19 && DigitPos(17) == 20;
    assert u[6] == HexValue(t[14]) * 16 + HexValue(t[15]);
    assert u[8] == HexValue(t[19]) * 16 + HexValue(t[20]);
    assert 8 <= HexValue(t[19]) < 12;
  }

  lemma DivMod16(a: nat, b: nat)
    requires a < 16 && b < 16
    ensures (a * 16 + b) / 16 == a && (a * 16 + b) % 16 == b
  {
  }

  lemma RenderAt(u: seq<nat>, p: nat)
    requires IsOctets(u) && p < 36 && !IsDash(p)
    ensures Render(u)[p] == HexDigit(Nibble(u, p - DashesBefore(p)))
  {
  }

  lemma NibbleSplit(u: seq<nat>, q: nat, hi: nat, lo: nat)
    requires IsOctets(u) && q < 32 && hi < 16 && lo < 16
    requires u[q / 2] == hi * 16 + lo
    ensures Nibble(u, q) == if q % 2 == 0 then hi else lo
  {
    DivMod16(hi, lo);
  }

  lemma ParseAt(t: string, k: nat)
    requires IsV4Token(t) && k < 16
    ensures Parse(t)[k] == HexValue(t[DigitPos(2 * k)]) * 16 + HexValue(t[DigitPos(2 * k + 1)])
  {
  }

  lemma RenderParseAt(t: string, p: nat)
    requires IsV4Token(t) && p < 36 && !IsDash(p)
    ensures Render(Parse(t))[p] == LowerChar(t[p])
  {
    var u := Parse(t);
    var q := p - DashesBefore(p);
    var k := q / 2;
    var hi, lo := HexValue(t[DigitPos(2 * k)]), HexValue(t[DigitPos(2 * k + 1)]);
    ParseAt(t, k);
    NibbleSplit(u, q, hi, lo);
    assert Nibble(u, q) == HexValue(t[p]) by {
      assert DigitPos(q) == p;
      if q % 2 == 0 {
        assert 2 * k == q;
      } else {
        assert 2 * k + 1 == q;
      }
    }
    RenderAt(u, p);
    HexDigitOfValue(t[p]);
  }

  /** Every accepted token spells a version-4 UUID, and is its canonical form
      up to letter case. */
  lemma AcceptedIsV4(t: string)
    requires IsV4Token(t)
    ensures IsVersion4(Parse(t)) && Render(Parse(t)) == Lower(t)
  {
    ParsedIsVersion4(t);
    forall p | 0 <= p < 36
      ensures Render(Parse(t))[p] == Lower(t)[p]
    {
      if !IsDash(p) {
        RenderParseAt(t, p);
      }
    }
  }

  /** The PHP check accepts a valid token followed by one newline; the
      JavaScript check refuses it. */
  lemma TrailingNewline(t: string)
    requires IsV4Token(t)
    ensures IsV4TokenPhp(t + "\n") && !IsV4Token(t + "\n")
  {
    assert (t + "\n")[..|t|] == t;
  }
}
