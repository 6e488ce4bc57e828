/** HTML escaping as done by PHP's `htmlspecialchars($s, ENT_QUOTES)` and by the
    chain of `replace` calls in the JavaScript `sanitizeInput`. */
module Html {
  import opened Text

  /** The five characters both escapers rewrite. */
  predicate IsSpecial(c: char) {
    c == '&' || c == '<' || c == '>' || c == '"' || c == '\''
  }

  /** The four characters that never survive escaping. */
  predicate IsMarkup(c: char) {
    c == '<' || c == '>' || c == '"' || c == '\''
  }

  /** `u` begins with one of the five entities the escapers produce. */
  predicate StartsWithEntity(u: string) {
    "&amp;" <= u || "&lt;" <= u || "&gt;" <= u || "&quot;" <= u || "&#039;" <= u
  }

  function EscapeChar(c: char): (r: string)
    ensures IsSpecial(c) ==> |r| > 1 && StartsWithEntity(r) && r[|r| - 1] == ';'
    ensures IsSpecial(c) ==> forall i | 0 <= i < |r| :: !IsMarkup(r[i]) && (r[i] == '&' <==> i == 0)
    ensures !IsSpecial(c) ==> r == [c]
  {
    if c == '&' then "&amp;"
    else if c == '<' then "&lt;"
    else if c == '>' then "&gt;"
    else if c == '"' then "&quot;"
    else if c == '\'' then "&#039;"
    else [c]
  }

  /** Character-by-character escaping; PHP's `htmlspecialchars` with `ENT_QUOTES`
      (double encoding on) on a well-formed string. */
  function Escape(s: string): (r: string)
    ensures |r| >= |s|
    ensures |r| == |s| <==> forall i | 0 <= i < |s| :: !IsSpecial(s[i])
    ensures forall i | 0 <= i < |r| :: !IsMarkup(r[i])
    ensures |s| > 0 ==> |r| > 0 && (r[0] == s[0] || r[0] == '&')
    ensures |s| > 0 ==> r[|r| - 1] == s[|s| - 1] || r[|r| - 1] == ';'
  {
    if s == [] then []
    else
      var r := EscapeChar(s[0]) + Escape(s[1..]);
      assert |r| == |s| ==> !IsSpecial(s[0]);
      r
  }

  /** Every `&` in escaped text opens one of the five entities, so escaped
      text never holds a bare ampersand. */
  lemma {:induction false} EscapeEntities(s: string, i: nat)
    requires i < |Escape(s)| && Escape(s)[i] == '&'
    ensures StartsWithEntity(Escape(s)[i..])
  {
    var head := EscapeChar(s[0]);
    var tail := Escape(s[1..]);
    assert Escape(s) == head + tail;
    if i < |head| {
      assert IsSpecial(s[0]) && i == 0;
    } else {
      assert Escape(s)[i..] == tail[i - |head|..];
      EscapeEntities(s[1..], i - |head|);
    }
  }

  /** Text without special characters is left as it is. */
  lemma {:induction false} EscapePlain(s: string)
    requires forall i | 0 <= i < |s| :: !IsSpecial(s[i])
    ensures Escape(s) == s
  {
    if s != [] {
      EscapePlain(s[1..]);
    }
  }

  /** The JavaScript `sanitizeInput` body: five global replacements, `&` first. */
  function ReplaceChain(s: string): string {
    var a := ReplaceAll(s, '&', "&amp;");
    var b := ReplaceAll(a, '<', "&lt;");
    var c := ReplaceAll(b, '>', "&gt;");
    var d := ReplaceAll(c, '"', "&quot;");
    ReplaceAll(d, '\'', "&#039;")
  }

  lemma ReplaceChainAppend(x: string, y: string)
    ensures ReplaceChain(x + y) == ReplaceChain(x) + ReplaceChain(y)
  {
    ReplaceAllAppend(x, y, '&', "&amp;");
    var a1, a2 := ReplaceAll(x, '&', "&amp;"), ReplaceAll(y, '&', "&amp;");
    ReplaceAllAppend(a1, a2, '<', "&lt;");
    var b1, b2 := ReplaceAll(a1, '<', "&lt;"), ReplaceAll(a2, '<', "&lt;");
    ReplaceAllAppend(b1, b2, '>', "&gt;");
    var c1, c2 := ReplaceAll(b1, '>', "&gt;"), ReplaceAll(b2, '>', "&gt;");
    ReplaceAllAppend(c1, c2, '"', "&quot;");
    var d1, d2 := ReplaceAll(c1, '"', "&quot;"), ReplaceAll(c2, '"', "&quot;");
    ReplaceAllAppend(d1, d2, '\'', "&#039;");
  }

  lemma ReplaceChainChar(c: char)
    ensures ReplaceChain([c]) == EscapeChar(c)
  {
    assert ReplaceAll([c], '&', "&amp;") == (if c == '&' then "&amp;" else [c]) by {
      assert [c][1..] == [];
    }
    if c != '&' {
      assert ReplaceAll([c], '<', "&lt;") == (if c == '<' then "&lt;" else [c]) by {
        assert [c][1..] == [];
      }
      if c != '<' {
        assert ReplaceAll([c], '>', "&gt;") == (if c == '>' then "&gt;" else [c]) by {
          assert [c][1..] == [];
        }
        if c != '>' {
          assert ReplaceAll([c], '"', "&quot;") == (if c == '"' then "&quot;" else [c]) by {
            assert [c][1..] == [];
          }
          if c != '"' {
            assert ReplaceAll([c], '\'', "&#039;") == (if c == '\'' then "&#039;" else [c]) by {
              assert [c][1..] == [];
            }
          }
        }
      }
    }
  }

  /** Because `&` is replaced first, the JavaScript replacement chain computes
      exactly the character-wise escaping: no later pass touches an entity. */
  lemma {:induction false} ReplaceChainIsEscape(s: string)
    ensures ReplaceChain(s) == Escape(s)
  {
    if s != [] {
      assert s == [s[0]] + s[1..];
      ReplaceChainAppend([s[0]], s[1..]);
      ReplaceChainChar(s[0]);
      ReplaceChainIsEscape(s[1..]);
    }
  }

  /** Escaping is not idempotent: a second pass re-escapes the `&` of every entity. */
  lemma EscapeNotIdempotent()
    ensures Escape(Escape("&")) != Escape("&")
  {
    assert Escape("&") == "&amp;";
    assert |Escape(Escape("&"))| > |"&amp;"|;
  }
}
