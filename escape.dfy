/**
  HTML escaping of interpolated text (`_escapeHtml`). The card runs five global
  one-character replacements in a fixed order, `&` first. This module models that
  chain as written (`EscapeHtml`), proves it equal to a character-by-character
  definition (`EscapeText`, which the render pass uses), and proves that escaped
  text holds no raw `<`, `>`, `"` or `'`, distributes over concatenation and
  decodes back to the input.
*/
module HtmlEscape {

  /** The characters that HTML escaping replaces. */
  predicate IsSpecial(c: char) {
    c == '&' || c == '<' || c == '>' || c == '"' || c == '\''
  }

  /** No raw markup delimiter or quote: the text is inert inside an element or an attribute value. */
  predicate IsSafe(s: string) {
    '<' !in s && '>' !in s && '"' !in s && '\'' !in s
  }

  /** One `String.prototype.replace(/c/g, rep)`: every occurrence of `c` in `s` becomes `rep`. */
  function ReplaceAll(s: string, c: char, rep: string): string
  {
    if s == [] then []
    else (if s[0] == c then rep else [s[0]]) + ReplaceAll(s[1..], c, rep)
  }

  /** The five replacements of `_escapeHtml`, in the source's order. Each replacement removes its
      character and, as no entity holds a `<`, `>`, `"` or `'`, brings back none removed before. */
  function ReplaceChain(s: string): (r: string)
    ensures IsSafe(r)
  {
    ReplaceChainSafe(s);
    var amp := ReplaceAll(s, '&', "&amp;");
    var lt := ReplaceAll(amp, '<', "&lt;");
    var gt := ReplaceAll(lt, '>', "&gt;");
    var quot := ReplaceAll(gt, '"', "&quot;");
    ReplaceAll(quot, '\'', "&#039;")
  }

  lemma ReplaceChainSafe(s: string)
    ensures IsSafe(ReplaceAll(ReplaceAll(ReplaceAll(ReplaceAll(ReplaceAll(s, '&', "&amp;"), '<', "&lt;"), '>', "&gt;"), '"', "&quot;"), '\'', "&#039;"))
  {
    var amp := ReplaceAll(s, '&', "&amp;");
    var lt := ReplaceAll(amp, '<', "&lt;");
    ReplaceAllAbsent(amp, '<', "&lt;", '<');
    var gt := ReplaceAll(lt, '>', "&gt;");
    ReplaceAllAbsent(lt, '>', "&gt;", '<');
    ReplaceAllAbsent(lt, '>', "&gt;", '>');
    var quot := ReplaceAll(gt, '"', "&quot;");
    ReplaceAllAbsent(gt, '"', "&quot;", '<');
    ReplaceAllAbsent(gt, '"', "&quot;", '>');
    ReplaceAllAbsent(gt, '"', "&quot;", '"');
    ReplaceAllAbsent(quot, '\'', "&#039;", '<');
    ReplaceAllAbsent(quot, '\'', "&#039;", '>');
    ReplaceAllAbsent(quot, '\'', "&#039;", '"');
    ReplaceAllAbsent(quot, '\'', "&#039;", '\'');
  }

  /** After a replacement, `d` is absent if the replacement text lacks it and it was either the replaced
      character or already absent. */
  lemma {:induction false} ReplaceAllAbsent(s: string, c: char, rep: string, d: char)
    requires d !in rep && (d == c || d !in s)
    ensures d !in ReplaceAll(s, c, rep)
  {
    if s != [] {
      assert d != c ==> d != s[0];
      ReplaceAllAbsent(s[1..], c, rep, d);
    }
  }

  /** `_escapeHtml` as written: the empty string gives `''`, any other text goes through the chain. */
  function EscapeHtml(s: string): (r: string)
    ensures s == [] ==> r == []
  {
    if s == [] then "" else ReplaceChain(s)
  }

  /** The entity (or the character itself) that escaping substitutes for one character. */
  function EscapeChar(c: char): (r: string)
    ensures IsSpecial(c) ==> |r| >= 4 && r[0] == '&' && r[|r| - 1] == ';'
    ensures !IsSpecial(c) ==> r == [c]
    ensures IsSafe(r)
  {
    match c
    case '&' => "&amp;"
    case '<' => "&lt;"
    case '>' => "&gt;"
    case '"' => "&quot;"
    case '\'' => "&#039;"
    case _ => [c]
  }

  /** Escaping character by character. */
  function EscapeText(s: string): string
  {
    if s == [] then [] else EscapeChar(s[0]) + EscapeText(s[1..])
  }

  /** Decoding of the five entities; the inverse of escaping. */
  function Unescape(s: string): string
    decreases |s|
  {
    if s == [] then []
    else if "&amp;" <= s then "&" + Unescape(s[5..])
    else if "&lt;" <= s then "<" + Unescape(s[4..])
    else if "&gt;" <= s then ">" + Unescape(s[4..])
    else if "&quot;" <= s then "\"" + Unescape(s[6..])
    else if "&#039;" <= s then "'" + Unescape(s[6..])
    else [s[0]] + Unescape(s[1..])
  }

  lemma {:induction false} ReplaceAllConcat(a: string, b: string, c: char, rep: string)
    ensures ReplaceAll(a + b, c, rep) == ReplaceAll(a, c, rep) + ReplaceAll(b, c, rep)
  {
    if a == [] {
      assert a + b == b;
    } else {
      assert (a + b)[1..] == a[1..] + b;
      ReplaceAllConcat(a[1..], b, c, rep);
    }
  }

  /** A replacement of a character that does not occur changes nothing. */
  lemma {:induction false} ReplaceAllIdentity(s: string, c: char, rep: string)
    requires c !in s
    ensures ReplaceAll(s, c, rep) == s
  {
    if s != [] {
      assert s == [s[0]] + s[1..];
      ReplaceAllIdentity(s[1..], c, rep);
    }
  }

  lemma ReplaceAllSingle(c: char, d: char, rep: string)
    ensures ReplaceAll([c], d, rep) == if c == d then rep else [c]
  {
    assert [c][1..] == [];
  }

  lemma ReplaceChainConcat(a: string, b: string)
    ensures ReplaceChain(a + b) == ReplaceChain(a) + ReplaceChain(b)
  {
    ReplaceAllConcat(a, b, '&', "&amp;");
    var a1, b1 := ReplaceAll(a, '&', "&amp;"), ReplaceAll(b, '&', "&amp;");
    ReplaceAllConcat(a1, b1, '<', "&lt;");
    var a2, b2 := ReplaceAll(a1, '<', "&lt;"), ReplaceAll(b1, '<', "&lt;");
    ReplaceAllConcat(a2, b2, '>', "&gt;");
    var a3, b3 := ReplaceAll(a2, '>', "&gt;"), ReplaceAll(b2, '>', "&gt;");
    ReplaceAllConcat(a3, b3, '"', "&quot;");
    var a4, b4 := ReplaceAll(a3, '"', "&quot;"), ReplaceAll(b3, '"', "&quot;");
    ReplaceAllConcat(a4, b4, '\'', "&#039;");
  }

  // The five per-character lemmas below take the character and its entity as parameters pinned by
  // `requires`, rather than as literals in the contract, so that the verifier does not unfold
  // `ReplaceAll` over string literals eagerly; each follows the chain one replacement at a time.
  lemma ReplaceChainAmp(c: char, e: string)
    requires c == '&' && e == "&amp;"
    ensures ReplaceChain([c]) == e
  {
    var s1 := ReplaceAll([c], '&', "&amp;");
    ReplaceAllSingle(c, '&', "&amp;");
    assert s1 == e;
    var s2 := ReplaceAll(s1, '<', "&lt;");
    ReplaceAllIdentity(e, '<', "&lt;");
    assert s2 == e;
    var s3 := ReplaceAll(s2, '>', "&gt;");
    ReplaceAllIdentity(e, '>', "&gt;");
    assert s3 == e;
    var s4 := ReplaceAll(s3, '"', "&quot;");
    ReplaceAllIdentity(e, '"', "&quot;");
    assert s4 == e;
    var s5 := ReplaceAll(s4, '\'', "&#039;");
    ReplaceAllIdentity(e, '\'', "&#039;");
    assert s5 == e;
  }

  lemma ReplaceChainLt(c: char, e: string)
    requires c == '<' && e == "&lt;"
    ensures ReplaceChain([c]) == e
  {
    var s1 := ReplaceAll([c], '&', "&amp;");
    ReplaceAllSingle(c, '&', "&amp;");
    var s2 := ReplaceAll(s1, '<', "&lt;");
    ReplaceAllSingle(c, '<', "&lt;");
    assert s2 == e;
    var s3 := ReplaceAll(s2, '>', "&gt;");
    ReplaceAllIdentity(e, '>', "&gt;");
    assert s3 == e;
    var s4 := ReplaceAll(s3, '"', "&quot;");
    ReplaceAllIdentity(e, '"', "&quot;");
    assert s4 == e;
    var s5 := ReplaceAll(s4, '\'', "&#039;");
    ReplaceAllIdentity(e, '\'', "&#039;");
    assert s5 == e;
  }

  lemma ReplaceChainGt(c: char, e: string)
    requires c == '>' && e == "&gt;"
    ensures ReplaceChain([c]) == e
  {
    var s1 := ReplaceAll([c], '&', "&amp;");
    ReplaceAllSingle(c, '&', "&amp;");
    var s2 := ReplaceAll(s1, '<', "&lt;");
    ReplaceAllSingle(c, '<', "&lt;");
    var s3 := ReplaceAll(s2, '>', "&gt;");
    ReplaceAllSingle(c, '>', "&gt;");
    assert s3 == e;
    var s4 := ReplaceAll(s3, '"', "&quot;");
    ReplaceAllIdentity(e, '"', "&quot;");
    assert s4 == e;
    var s5 := ReplaceAll(s4, '\'', "&#039;");
    ReplaceAllIdentity(e, '\'', "&#039;");
    assert s5 == e;
  }

  lemma ReplaceChainQuot(c: char, e: string)
    requires c == '"' && e == "&quot;"
    ensures ReplaceChain([c]) == e
  {
    var s1 := ReplaceAll([c], '&', "&amp;");
    ReplaceAllSingle(c, '&', "&amp;");
    var s2 := ReplaceAll(s1, '<', "&lt;");
    ReplaceAllSingle(c, '<', "&lt;");
    var s3 := ReplaceAll(s2, '>', "&gt;");
    ReplaceAllSingle(c, '>', "&gt;");
    var s4 := ReplaceAll(s3, '"', "&quot;");
    ReplaceAllSingle(c, '"', "&quot;");
    assert s4 == e;
    var s5 := ReplaceAll(s4, '\'', "&#039;");
    ReplaceAllIdentity(e, '\'', "&#039;");
    assert s5 == e;
  }

  lemma ReplaceChainApos(c: char, e: string)
    requires c == '\'' && e == "&#039;"
    ensures ReplaceChain([c]) == e
  {
    var s1 := ReplaceAll([c], '&', "&amp;");
    ReplaceAllSingle(c, '&', "&amp;");
    var s2 := ReplaceAll(s1, '<', "&lt;");
    ReplaceAllSingle(c, '<', "&lt;");
    var s3 := ReplaceAll(s2, '>', "&gt;");
    ReplaceAllSingle(c, '>', "&gt;");
    var s4 := ReplaceAll(s3, '"', "&quot;");
    ReplaceAllSingle(c, '"', "&quot;");
    var s5 := ReplaceAll(s4, '\'', "&#039;");
    ReplaceAllSingle(c, '\'', "&#039;");
    assert s5 == e;
  }

  lemma ReplaceChainPlain(c: char)
    requires !IsSpecial(c)
    ensures ReplaceChain([c]) == [c]
  {
    ReplaceAllSingle(c, '&', "&amp;");
    ReplaceAllSingle(c, '<', "&lt;");
    ReplaceAllSingle(c, '>', "&gt;");
    ReplaceAllSingle(c, '"', "&quot;");
    ReplaceAllSingle(c, '\'', "&#039;");
  }

  /** The chain applied to one character yields exactly that character's entity: since `&` is replaced
      first, the `&` of a later entity is never escaped again. */
  lemma ReplaceChainChar(c: char)
    ensures ReplaceChain([c]) == EscapeChar(c)
  {
    match c
    case '&' => ReplaceChainAmp(c, "&amp;");
    case '<' => ReplaceChainLt(c, "&lt;");
    case '>' => ReplaceChainGt(c, "&gt;");
    case '"' => ReplaceChainQuot(c, "&quot;");
    case '\'' => ReplaceChainApos(c, "&#039;");
    case _ => ReplaceChainPlain(c);
  }

  /** The replacement chain escapes character by character: each input character becomes
      exactly one of `&amp;`, `&lt;`, `&gt;`, `&quot;`, `&#039;` or itself. */
  lemma {:induction false} EscapeHtmlIsEscapeText(s: string)
    ensures EscapeHtml(s) == EscapeText(s)
  {
    if s != [] {
      assert s == [s[0]] + s[1..];
      ReplaceChainConcat([s[0]], s[1..]);
      ReplaceChainChar(s[0]);
      EscapeHtmlIsEscapeText(s[1..]);
      if s[1..] == [] {
        assert ReplaceChain(s[1..]) == [];
      }
    }
  }

  lemma {:induction false} EscapeTextIsSafe(s: string)
    ensures IsSafe(EscapeText(s))
  {
    if s != [] {
      EscapeTextIsSafe(s[1..]);
    }
  }

  lemma {:induction false} EscapeTextConcat(a: string, b: string)
    ensures EscapeText(a + b) == EscapeText(a) + EscapeText(b)
  {
    if a == [] {
      assert a + b == b;
    } else {
      assert (a + b)[1..] == a[1..] + b;
      EscapeTextConcat(a[1..], b);
    }
  }

  lemma UnescapeAmp(t: string, rest: string)
    requires t == "&amp;" + rest
    ensures Unescape(t) == "&" + Unescape(rest)
  {
    assert "&amp;" <= t && t[5..] == rest;
  }

  lemma UnescapeLt(t: string, rest: string)
    requires t == "&lt;" + rest
    ensures Unescape(t) == "<" + Unescape(rest)
  {
    assert t[1] == 'l';
    assert "&lt;" <= t && t[4..] == rest;
  }

  lemma UnescapeGt(t: string, rest: string)
    requires t == "&gt;" + rest
    ensures Unescape(t) == ">" + Unescape(rest)
  {
    assert t[1] == 'g';
    assert "&gt;" <= t && t[4..] == rest;
  }

  lemma UnescapeQuot(t: string, rest: string)
    requires t == "&quot;" + rest
    ensures Unescape(t) == "\"" + Unescape(rest)
  {
    assert t[1] == 'q';
    assert "&quot;" <= t && t[6..] == rest;
  }

  lemma UnescapeApos(t: string, rest: string)
    requires t == "&#039;" + rest
    ensures Unescape(t) == "'" + Unescape(rest)
  {
    assert t[1] == '#';
    assert "&#039;" <= t && t[6..] == rest;
  }

  lemma UnescapePlain(c: char, rest: string)
    requires c != '&'
    ensures Unescape([c] + rest) == [c] + Unescape(rest)
  {
    var t := [c] + rest;
    assert t[0] == c && t[1..] == rest;
  }

  lemma UnescapeStep(c: char, rest: string)
    ensures Unescape(EscapeChar(c) + rest) == [c] + Unescape(rest)
  {
    var t := EscapeChar(c) + rest;
    match c
    case '&' => UnescapeAmp(t, rest);
    case '<' => UnescapeLt(t, rest);
    case '>' => UnescapeGt(t, rest);
    case '"' => UnescapeQuot(t, rest);
    case '\'' => UnescapeApos(t, rest);
    case _ => UnescapePlain(c, rest);
  }

  lemma {:induction false} UnescapeEscapeText(s: string)
    ensures Unescape(EscapeText(s)) == s
  {
    if s != [] {
      UnescapeStep(s[0], EscapeText(s[1..]));
      UnescapeEscapeText(s[1..]);
    }
  }

  /** The escaped text holds no raw `<`, `>`, `"` or `'`. */
  lemma EscapeHtmlIsSafe(s: string)
    ensures IsSafe(EscapeHtml(s))
  {
    EscapeHtmlIsEscapeText(s);
    EscapeTextIsSafe(s);
  }

  /** Escaping distributes over concatenation. */
  lemma EscapeHtmlConcat(a: string, b: string)
    ensures EscapeHtml(a + b) == EscapeHtml(a) + EscapeHtml(b)
  {
    EscapeHtmlIsEscapeText(a + b);
    EscapeHtmlIsEscapeText(a);
    EscapeHtmlIsEscapeText(b);
    EscapeTextConcat(a, b);
  }

  /** Round trip: decoding the entities of an escaped text gives the text back, so escaping loses nothing. */
  lemma UnescapeEscapeHtml(s: string)
    ensures Unescape(EscapeHtml(s)) == s
  {
    EscapeHtmlIsEscapeText(s);
    UnescapeEscapeText(s);
  }
}
