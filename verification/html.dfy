/**
 * `sanitize`: the HTML escaping applied to a task's title, description and
 * date before they are interpolated into card markup. The source performs four
 * global replacements in a fixed order (`&` first); `Escape`/`EscapeAll` is the
 * per-character reading of the same transformation and `Unescape` is how a
 * browser decodes the four entities back into text.
 */
module Html {

  predicate IsSpecial(c: char)
  {
    c == '&' || c == '<' || c == '>' || c == '"'
  }

  /** The entity for one character, or the character itself. */
  function Escape(c: char): string
  {
    if c == '&' then "&amp;"
    else if c == '<' then "&lt;"
    else if c == '>' then "&gt;"
    else if c == '"' then "&quot;"
    else [c]
  }

  predicate StartsWithAt(r: string, i: nat, p: string)
  {
    i + |p| <= |r| && r[i..i + |p|] == p
  }

  /** One of the four entities `sanitize` produces begins at position `i` of `r`. */
  predicate EntityAt(r: string, i: nat)
  {
    StartsWithAt(r, i, "&amp;") || StartsWithAt(r, i, "&lt;") || StartsWithAt(r, i, "&gt;") || StartsWithAt(r, i, "&quot;")
  }

  /** Markup-safe text: no `<`, `>` or `"`, and every `&` begins an entity. */
  predicate Safe(r: string)
  {
    && (forall i :: 0 <= i < |r| ==> r[i] != '<' && r[i] != '>' && r[i] != '"')
    && (forall i :: 0 <= i < |r| && r[i] == '&' ==> EntityAt(r, i))
  }

  lemma EntityAtShift(a: string, b: string, i: nat)
    requires EntityAt(b, i)
    ensures EntityAt(a + b, |a| + i)
  {
    var ab := a + b;
    forall p | p in ["&amp;", "&lt;", "&gt;", "&quot;"] && StartsWithAt(b, i, p)
      ensures StartsWithAt(ab, |a| + i, p)
    {
      assert ab[|a| + i..|a| + i + |p|] == b[i..i + |p|];
    }
  }

  lemma EntityAtPrefix(a: string, b: string, i: nat)
    requires EntityAt(a, i)
    ensures EntityAt(a + b, i)
  {
    var ab := a + b;
    forall p | p in ["&amp;", "&lt;", "&gt;", "&quot;"] && StartsWithAt(a, i, p)
      ensures StartsWithAt(ab, i, p)
    {
      assert ab[i..i + |p|] == a[i..i + |p|];
    }
  }

  /** Text that is safe on its own stays safe when joined to other safe text. */
  lemma SafeAppend(a: string, b: string)
    requires Safe(a) && Safe(b)
    ensures Safe(a + b)
  {
    var ab := a + b;
    forall i | 0 <= i < |ab| && ab[i] == '&'
      ensures EntityAt(ab, i)
    {
      if i < |a| {
        assert a[i] == '&';
        EntityAtPrefix(a, b, i);
      } else {
        assert b[i - |a|] == '&';
        EntityAtShift(a, b, i - |a|);
      }
    }
  }

  lemma EscapeSafe(c: char)
    ensures Safe(Escape(c))
  {
    var e := Escape(c);
    if c == '&' || c == '<' || c == '>' || c == '"' {
      assert StartsWithAt(e, 0, e);
    }
  }

  /** Per-character escaping of a whole string. */
  function EscapeAll(s: string): (r: string)
    ensures Safe(r)
    ensures (forall i :: 0 <= i < |s| ==> !IsSpecial(s[i])) ==> r == s
    ensures |r| >= |s|
    decreases |s|
  {
    if |s| == 0 then []
    else
      var rest := EscapeAll(s[1..]);
      EscapeSafe(s[0]);
      SafeAppend(Escape(s[0]), rest);
      assert [s[0]] + s[1..] == s;
      Escape(s[0]) + rest
  }

  /**
   * `str.replace(/ch/g, rep)`: every `ch` becomes `rep`, every other character stays (stated for a
   * single character here, and extended to any text by `ReplaceAllAppend`); so no `ch` is left
   * unless `rep` brings one, and a replacement at least one character long never shortens the text.
   */
  function ReplaceAll(s: string, ch: char, rep: string): (r: string)
    ensures ch !in s ==> r == s
    ensures ch !in rep ==> ch !in r
    ensures |rep| >= 1 ==> |r| >= |s|
    ensures s == [ch] ==> r == rep
    decreases |s|
  {
    if |s| == 0 then []
    else
      assert [s[0]] + s[1..] == s;
      (if s[0] == ch then rep else [s[0]]) + ReplaceAll(s[1..], ch, rep)
  }

  /** A character other than `ch` that `rep` does not bring occurs in the result exactly when it occurs in the input. */
  lemma {:induction false} ReplaceAllKeeps(s: string, ch: char, rep: string, c: char)
    requires c != ch && c !in rep
    ensures c in ReplaceAll(s, ch, rep) <==> c in s
    decreases |s|
  {
    if |s| > 0 {
      ReplaceAllKeeps(s[1..], ch, rep, c);
      assert s == [s[0]] + s[1..];
    }
  }

  lemma {:induction false} ReplaceAllAppend(a: string, b: string, ch: char, rep: string)
    ensures ReplaceAll(a + b, ch, rep) == ReplaceAll(a, ch, rep) + ReplaceAll(b, ch, rep)
    decreases |a|
  {
    if |a| == 0 {
      assert a + b == b;
    } else {
      assert (a + b)[1..] == a[1..] + b;
      ReplaceAllAppend(a[1..], b, ch, rep);
    }
  }

  /**
   * The source's `sanitize`: the four global replacements in their written order. The output holds
   * no `<`, `>` or `"`, is never shorter than the input, and text without the four special
   * characters passes through unchanged.
   */
  function Sanitize(s: string): (r: string)
    ensures '<' !in r && '>' !in r && '"' !in r
    ensures |r| >= |s|
    ensures (forall i :: 0 <= i < |s| ==> !IsSpecial(s[i])) ==> r == s
  {
    var amp := ReplaceAll(s, '&', "&amp;");
    var lt := ReplaceAll(amp, '<', "&lt;");
    var gt := ReplaceAll(lt, '>', "&gt;");
    ReplaceAllKeeps(lt, '>', "&gt;", '<');
    ReplaceAllKeeps(gt, '"', "&quot;", '<');
    ReplaceAllKeeps(gt, '"', "&quot;", '>');
    ReplaceAll(gt, '"', "&quot;")
  }

  lemma SanitizeAppend(a: string, b: string)
    ensures Sanitize(a + b) == Sanitize(a) + Sanitize(b)
  {
    var a1, b1 := ReplaceAll(a, '&', "&amp;"), ReplaceAll(b, '&', "&amp;");
    ReplaceAllAppend(a, b, '&', "&amp;");
    var a2, b2 := ReplaceAll(a1, '<', "&lt;"), ReplaceAll(b1, '<', "&lt;");
    ReplaceAllAppend(a1, b1, '<', "&lt;");
    var a3, b3 := ReplaceAll(a2, '>', "&gt;"), ReplaceAll(b2, '>', "&gt;");
    ReplaceAllAppend(a2, b2, '>', "&gt;");
    ReplaceAllAppend(a3, b3, '"', "&quot;");
  }

  /** On a single character the chain of replacements yields that character's entity; later passes never touch an earlier pass's output. */
  lemma SanitizeChar(c: char)
    ensures Sanitize([c]) == Escape(c)
  {
    if c == '&' {
      SanitizeAmp(c);
    } else if c == '<' {
      SanitizeLt(c);
    } else if c == '>' {
      SanitizeGt(c);
    } else if c == '"' {
      SanitizeQuot(c);
    } else {
      SanitizePlain(c);
    }
  }

  /** Each special character is replaced by its own pass; its entity holds nothing a later pass replaces. */
  lemma SanitizeAmp(c: char)
    requires c == '&'
    ensures Sanitize([c]) == "&amp;"
  {
    var e := ReplaceAll([c], '&', "&amp;");
    assert e == "&amp;";
    assert '<' !in e && '>' !in e && '"' !in e;
  }

  lemma SanitizeLt(c: char)
    requires c == '<'
    ensures Sanitize([c]) == "&lt;"
  {
    var e := ReplaceAll([c], '<', "&lt;");
    assert e == "&lt;";
    assert '>' !in e && '"' !in e;
  }

  lemma SanitizeGt(c: char)
    requires c == '>'
    ensures Sanitize([c]) == "&gt;"
  {
    var e := ReplaceAll([c], '>', "&gt;");
    assert e == "&gt;";
    assert '"' !in e;
  }

  lemma SanitizeQuot(c: char)
    requires c == '"'
    ensures Sanitize([c]) == "&quot;"
  {
  }

  /** A character outside `&<>"` passes through every replacement unchanged. */
  lemma SanitizePlain(c: char)
    requires !IsSpecial(c)
    ensures Sanitize([c]) == [c]
  {
  }

  /**
   * The output of `sanitize` is markup-safe: it holds no `<`, `>` or `"`, every `&` in it
   * begins `&amp;`, `&lt;`, `&gt;` or `&quot;`, and text without any of `&<>"` comes back unchanged.
   */
  lemma SanitizeSafe(s: string)
    ensures Safe(Sanitize(s))
    ensures (forall i :: 0 <= i < |s| ==> !IsSpecial(s[i])) ==> Sanitize(s) == s
  {
    SanitizeIsEscapeAll(s);
  }

  /** Applying the replacements in sequence is the same as escaping each character once. */
  lemma {:induction false} SanitizeIsEscapeAll(s: string)
    ensures Sanitize(s) == EscapeAll(s)
    decreases |s|
  {
    if |s| > 0 {
      assert s == [s[0]] + s[1..];
      SanitizeAppend([s[0]], s[1..]);
      SanitizeChar(s[0]);
      SanitizeIsEscapeAll(s[1..]);
    }
  }

  /** How markup text is read back: each of the four entities decodes to its character. */
  function Unescape(r: string): string
    decreases |r|
  {
    if |r| == 0 then []
    else if StartsWithAt(r, 0, "&amp;") then ['&'] + Unescape(r[5..])
    else if StartsWithAt(r, 0, "&lt;") then ['<'] + Unescape(r[4..])
    else if StartsWithAt(r, 0, "&gt;") then ['>'] + Unescape(r[4..])
    else if StartsWithAt(r, 0, "&quot;") then ['"'] + Unescape(r[6..])
    else [r[0]] + Unescape(r[1..])
  }

  /** Reading back one escaped character: the entity (or the plain character) decodes to that character. */
  lemma UnescapeEscape(c: char, rest: string)
    ensures Unescape(Escape(c) + rest) == [c] + Unescape(rest)
  {
    if c == '&' {
      UnescapeEntity("&amp;", 5, '&', rest);
    } else if c == '<' {
      UnescapeEntity("&lt;", 4, '<', rest);
    } else if c == '>' {
      UnescapeEntity("&gt;", 4, '>', rest);
    } else if c == '"' {
      UnescapeEntity("&quot;", 6, '"', rest);
    } else {
      UnescapePlain(c, rest);
    }
  }

  lemma UnescapeEntity(e: string, n: nat, c: char, rest: string)
    requires (e, n, c) in {("&amp;", 5, '&'), ("&lt;", 4, '<'), ("&gt;", 4, '>'), ("&quot;", 6, '"')}
    ensures Unescape(e + rest) == [c] + Unescape(rest)
  {
    var r := e + rest;
    assert |e| == n && r[..n] == e && r[n..] == rest;
    assert r[1] == e[1] && r[2] == e[2];
  }

  lemma UnescapePlain(c: char, rest: string)
    requires !IsSpecial(c)
    ensures Unescape([c] + rest) == [c] + Unescape(rest)
  {
    var r := [c] + rest;
    assert r[0] == c && r[1..] == rest;
  }

  /** Escaped text displays as exactly the text the user typed. */
  lemma {:induction false} SanitizeRoundTrip(s: string)
    ensures Unescape(Sanitize(s)) == s
    decreases |s|
  {
    if |s| > 0 {
      SanitizeIsEscapeAll(s);
      SanitizeIsEscapeAll(s[1..]);
      assert EscapeAll(s) == Escape(s[0]) + EscapeAll(s[1..]);
      UnescapeEscape(s[0], EscapeAll(s[1..]));
      SanitizeRoundTrip(s[1..]);
      assert [s[0]] + s[1..] == s;
    }
  }
}
