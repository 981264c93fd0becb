/**
 * template.HTMLEscapeString, which ParseAll applies between the wiki
 * normalisation and the heading pass (wikidown.go:19): `<`, `>`, `&`, `'`
 * and `"` become character references, and NUL becomes U+FFFD.
 */
module Escape {
  import opened Text

  /** What one character becomes. */
  function EscapeChar(c: char): string
  {
    if c == '\0' then ['\U{FFFD}']
    else if c == '"' then "&#34;"
    else if c == '\'' then "&#39;"
    else if c == '&' then "&amp;"
    else if c == '<' then "&lt;"
    else if c == '>' then "&gt;"
    else [c]
  }

  /** The characters the escaper rewrites. */
  predicate Special(c: char)
  {
    c == '\0' || c == '"' || c == '\'' || c == '&' || c == '<' || c == '>'
  }

  /** template.HTMLEscapeString: every character escaped, left to right. */
  function HtmlEscape(s: string): string
    decreases |s|
  {
    if |s| == 0 then "" else EscapeChar(s[0]) + HtmlEscape(s[1..])
  }

  /** Turning the five character references back into characters. */
  function Unescape(s: string): string
    decreases |s|
  {
    if StartsWith(s, "&#34;") then "\"" + Unescape(s[5..])
    else if StartsWith(s, "&#39;") then "'" + Unescape(s[5..])
    else if StartsWith(s, "&amp;") then "&" + Unescape(s[5..])
    else if StartsWith(s, "&lt;") then "<" + Unescape(s[4..])
    else if StartsWith(s, "&gt;") then ">" + Unescape(s[4..])
    else if |s| == 0 then ""
    else [s[0]] + Unescape(s[1..])
  }

  /** After escaping, no markup character and no NUL is left. */
  lemma {:induction false} EscapedHasNoMarkup(s: string)
    ensures forall c :: c in HtmlEscape(s) ==> !Special(c) || c == '&'
    decreases |s|
  {
    if |s| > 0 {
      EscapedHasNoMarkup(s[1..]);
      var e := EscapeChar(s[0]);
      assert forall c :: c in e ==> !Special(c) || c == '&';
    }
  }

  /** A text free of the special characters is left as it is. */
  lemma {:induction false} EscapeIdentity(s: string)
    requires forall i :: 0 <= i < |s| ==> !Special(s[i])
    ensures HtmlEscape(s) == s
    decreases |s|
  {
    if |s| > 0 {
      EscapeIdentity(s[1..]);
      assert [s[0]] + s[1..] == s;
    }
  }

  /** A text starting with something other than `&` starts no character reference. */
  lemma {:induction false} NoReference(out: string, p: string)
    requires |out| > 0 && out[0] != '&' && |p| > 0 && p[0] == '&'
    ensures !StartsWith(out, p)
  {
    if |p| <= |out| {
      assert out[..|p|][0] == out[0];
    }
  }

  /** A text differing from `p` at index `i` does not start with `p`. */
  lemma {:induction false} DiffersAt(out: string, p: string, i: nat)
    requires i < |out| && i < |p| && out[i] != p[i]
    ensures !StartsWith(out, p)
  {
    if |p| <= |out| {
      assert out[..|p|][i] == out[i];
    }
  }

  /** Unescape reads back one escaped character. */
  lemma {:induction false} UnescapeStep(c: char, rest: string)
    requires c != '\0'
    ensures Unescape(EscapeChar(c) + rest) == [c] + Unescape(rest)
  {
    var e := EscapeChar(c);
    var out := e + rest;
    assert out[..|e|] == e && out[|e|..] == rest;
    if !Special(c) {
      assert e == [c];
      NoReference(out, "&#34;");
      NoReference(out, "&#39;");
      NoReference(out, "&amp;");
      NoReference(out, "&lt;");
      NoReference(out, "&gt;");
    } else if c == '\'' {
      assert out[..5][2] == '3' && out[..5][3] == '9';
    } else if c == '&' {
      assert out[..5][1] == 'a';
    } else if c == '>' {
      assert out[1] == 'g';
      DiffersAt(out, "&#34;", 1);
      DiffersAt(out, "&#39;", 1);
      DiffersAt(out, "&amp;", 1);
      DiffersAt(out, "&lt;", 1);
    } else if c == '<' {
      assert out[1] == 'l';
      DiffersAt(out, "&#34;", 1);
      DiffersAt(out, "&#39;", 1);
      DiffersAt(out, "&amp;", 1);
    }
  }

  /** Escaping is undone by Unescape, as long as the text holds no NUL. */
  lemma {:induction false} UnescapeEscape(s: string)
    requires '\0' !in s
    ensures Unescape(HtmlEscape(s)) == s
    decreases |s|
  {
    if |s| > 0 {
      assert '\0' !in s[1..] by {
        assert forall c :: c in s[1..] ==> c in s;
      }
      UnescapeEscape(s[1..]);
      UnescapeStep(s[0], HtmlEscape(s[1..]));
      assert [s[0]] + s[1..] == s;
    }
  }
}
