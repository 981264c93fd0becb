/**
 * ParseNoEscape (wikidown.go:25-55): the passes that run before HTML escaping.
 * They turn wiki markup into the internal markers that Parse understands later:
 * `*` bullets become `%` lines, quote runs become star runs, blockquote tags
 * become `$ ` lines, and HTML comments disappear.
 */
module Normalize {
  import opened Wrappers
  import opened Text
  import opened Scan

  /** `(?m)^\*(.*)` to `%$1`: a bullet line gets the internal `%` marker. */
  function StarLines(s: string): string
  {
    LinePrefixPass(s, "*", "%", "")
  }

  /** Every line that starts with `*` starts with `%` instead; no other line changes. */
  lemma {:induction false} StarLinesSpec(s: string)
    ensures |Lines(StarLines(s))| == |Lines(s)|
    ensures forall i :: 0 <= i < |Lines(s)| ==>
      Lines(StarLines(s))[i] ==
        if StartsWith(Lines(s)[i], "*") then "%" + Lines(s)[i][1..] else Lines(s)[i]
  {
    LinePrefixPassLines(s, "*", "%", "");
    forall i | 0 <= i < |Lines(s)| && StartsWith(Lines(s)[i], "*")
      ensures "%" + Lines(s)[i][|"*"|..] + "" == "%" + Lines(s)[i][1..]
    {
    }
  }

  /**
   * Quote runs of wiki emphasis, longest first: `'''''x'''''` to `***x***`,
   * then `'''x'''` to `**x**`, then `''x''` to `*x*` (wikidown.go:31-40).
   */
  function QuoteRuns(s: string): string
  {
    var s5 := PairRewrite(s, "'''''", "'''''", Tag("***", "***"));
    var s3 := PairRewrite(s5, "'''", "'''", Tag("**", "**"));
    PairRewrite(s3, "''", "''", Tag("*", "*"))
  }

  const BqOpen := "<blockquote>"
  const BqClose := "</blockquote>"

  /** Index of the first newline of `s`, or `|s|` when there is none. */
  function LineEnd(s: string): (e: nat)
    ensures e <= |s| && '\n' !in s[..e] && (e < |s| ==> s[e] == '\n')
    decreases |s|
  {
    if |s| == 0 || s[0] == '\n' then 0
    else
      var e := LineEnd(s[1..]);
      assert s[..e + 1] == [s[0]] + s[1..][..e];
      e + 1
  }

  /** The last occurrence of `t` in `s` (LastAtSpec). */
  function LastAt(s: string, t: string): (r: Option<nat>)
    ensures r.Some? ==> r.value + |t| <= |s|
    decreases |s|
  {
    if |s| < |t| then None
    else if At(s, |s| - |t|, t) then Some(|s| - |t|)
    else LastAt(s[..|s| - 1], t)
  }

  /** LastAt finds an occurrence with none after it, and fails only when there is none. */
  lemma {:induction false} LastAtSpec(s: string, t: string)
    ensures LastAt(s, t).Some? ==> At(s, LastAt(s, t).value, t)
    ensures LastAt(s, t).Some? ==> forall k :: LastAt(s, t).value < k <= |s| ==> !At(s, k, t)
    ensures LastAt(s, t).None? ==> forall k :: 0 <= k <= |s| ==> !At(s, k, t)
    decreases |s|
  {
    if |s| >= |t| && !At(s, |s| - |t|, t) {
      var u := s[..|s| - 1];
      LastAtSpec(u, t);
      forall k | 0 <= k && k + |t| <= |s| - 1 ensures At(s, k, t) <==> At(u, k, t) {
        assert u[k..k + |t|] == s[k..k + |t|];
      }
    }
  }

  /** A match of the blockquote pattern: the text of `$1` and the length matched. */
  datatype Span = Span(group: string, len: nat)

  /**
   * `<blockquote>(?:\n|\r\n)?((?:.)*)(?:\n|\r\n)?<\/blockquote>` at the start
   * of `s`, written for opening tag `o` and closing tag `c`, with Go's
   * preference order: the leading line break is taken when there is one; the
   * group runs to the end of its line when a line break and the closing tag
   * follow, and otherwise to the last closing tag on its line.
   */
  function TagAt(s: string, o: string, c: string): (r: Option<Span>)
    ensures r.Some? ==> StartsWith(s, o) && |o| + |c| <= r.value.len <= |s|
  {
    if !StartsWith(s, o) then None
    else
      var rest := s[|o|..];
      var q := if StartsWith(rest, "\n") then 1 else if StartsWith(rest, "\r\n") then 2 else 0;
      var t := rest[q..];
      var e := LineEnd(t);
      if e < |t| && At(t, e + 1, c) then
        Some(Span(t[..e], |o| + q + e + 1 + |c|))
      else
        match LastAt(t[..e], c)
        case Some(g) => Some(Span(t[..g], |o| + q + g + |c|))
        case None => None
  }

  /** ReplaceAllString of the tag pattern with `> $1`, scanning left to right. */
  function TagPass(s: string, o: string, c: string): string
    decreases |s|
  {
    if |s| == 0 then ""
    else
      match TagAt(s, o, c)
      case Some(m) => "> " + m.group + TagPass(s[m.len..], o, c)
      case None => [s[0]] + TagPass(s[1..], o, c)
  }

  /** The blockquote pass of wikidown.go:43-44. */
  function BlockquoteTags(s: string): string
  {
    TagPass(s, BqOpen, BqClose)
  }

  /** `(?m)^> (.*)` to `$ $1`: a quoted line gets the internal `$ ` marker (wikidown.go:47-48). */
  function QuoteLines(s: string): string
  {
    LinePrefixPass(s, "> ", "$ ", "")
  }

  /** `<!--.*?-->` removed: comments, each within one line (wikidown.go:51-52). */
  function StripComments(s: string): string
  {
    PairRewrite(s, "<!--", "-->", _ => "")
  }

  /** ParseNoEscape (wikidown.go:25-55). */
  function ParseNoEscape(s: string): string
  {
    StripComments(QuoteLines(BlockquoteTags(QuoteRuns(StarLines(s)))))
  }

  // ---------------------------------------------------------------------------
  // Properties

  /** What the proofs below need of the two tags: both start with `<` and stay on one line. */
  predicate TagsOk(o: string, c: string)
  {
    |o| > 0 && |c| > 0 && o[0] == '<' && c[0] == '<' && '\n' !in o && '\n' !in c &&
    '\'' !in o && '\'' !in c
  }

  lemma {:induction false} BqTagsOk()
    ensures TagsOk(BqOpen, BqClose)
  {
    assert BqOpen[0] == '<' && BqClose[0] == '<';
  }

  /** No tag match starts inside a stretch free of `<`. */
  lemma {:induction false} TagPassSkips(a: string, rest: string, o: string, c: string)
    requires '<' !in a && |o| > 0 && o[0] == '<'
    ensures TagPass(a + rest, o, c) == a + TagPass(rest, o, c)
    decreases |a|
  {
    if |a| > 0 {
      var s := a + rest;
      assert s[0] == a[0];
      assert !StartsWith(s, o) by {
        if |o| <= |s| {
          assert s[..|o|][0] == s[0];
        }
      }
      assert s[1..] == a[1..] + rest;
      TagPassSkips(a[1..], rest, o, c);
    } else {
      assert a + rest == rest;
    }
  }

  /** One step of the tag pass when the pattern matches at the start. */
  lemma {:induction false} TagPassStep(s: string, o: string, c: string, m: Span)
    requires |s| > 0 && TagAt(s, o, c) == Some(m)
    ensures TagPass(s, o, c) == "> " + m.group + TagPass(s[m.len..], o, c)
  {
  }

  /** A text without a newline starts with neither kind of line break. */
  lemma {:induction false} NoBreakStart(t: string)
    requires '\n' !in t
    ensures !StartsWith(t, "\n") && !StartsWith(t, "\r\n")
  {
    if |t| >= 2 {
      assert t[..2][1] == t[1];
    }
    if |t| >= 1 {
      assert t[..1][0] == t[0];
    }
  }

  /** The pattern on the three-line form: the group is the middle line. */
  lemma {:induction false} TagAtBlock(x: string, b: string, o: string, c: string)
    requires TagsOk(o, c) && '\n' !in x
    ensures TagAt(o + "\n" + x + "\n" + c + b, o, c) == Some(Span(x, |o| + 1 + |x| + 1 + |c|))
  {
    var m := o + "\n" + x + "\n" + c + b;
    var t := x + "\n" + c + b;
    assert StartsWith(m, o) && m[|o|..] == "\n" + t by {
      assert m[..|o|] == o;
      assert m[|o|..] == "\n" + t;
    }
    assert StartsWith("\n" + t, "\n") && ("\n" + t)[1..] == t;
    assert t[..|x|] == x;
    LineEndIs(t, |x|);
    assert At(t, |x| + 1, c) by {
      assert t[|x| + 1..|x| + 1 + |c|] == c;
    }
    TagAtBreak(m, o, c, t, x);
  }

  /** The pattern when a line break follows the opening tag and the closing tag starts the next line but one. */
  lemma {:induction false} TagAtBreak(m: string, o: string, c: string, t: string, x: string)
    requires StartsWith(m, o) && m[|o|..] == "\n" + t
    requires LineEnd(t) == |x| && |x| < |t| && t[..|x|] == x && At(t, |x| + 1, c)
    ensures TagAt(m, o, c) == Some(Span(x, |o| + 1 + |x| + 1 + |c|))
  {
    assert StartsWith("\n" + t, "\n") && ("\n" + t)[1..] == t;
  }

  /** The pattern on the one-line form: the group runs to the last closing tag. */
  lemma {:induction false} TagAtInline(x: string, o: string, c: string)
    requires TagsOk(o, c) && '\n' !in x
    ensures TagAt(o + x + c, o, c) == Some(Span(x, |o| + |x| + |c|))
  {
    var m := o + x + c;
    var rest := m[|o|..];
    assert StartsWith(m, o) && rest == x + c by {
      assert m[..|o|] == o;
    }
    assert '\n' !in rest;
    NoBreakStart(rest);
    assert rest[0..] == rest;
    assert LineEnd(rest) == |rest| by {
      assert rest[..|rest|] == rest;
      LineEndIs(rest, |rest|);
    }
    assert rest[..|rest|] == rest;
    assert LastAt(rest, c) == Some(|x|) by {
      assert rest[|x|..|x| + |c|] == c;
    }
    assert rest[..|x|] == x;
  }

  /**
   * The form written on three lines, `<blockquote>`, the quote, and
   * `</blockquote>`, becomes `> ` followed by the quote.
   */
  lemma {:induction false} BlockquoteBlock(a: string, x: string, b: string)
    requires '<' !in a && '\n' !in x
    ensures BlockquoteTags(a + BqOpen + "\n" + x + "\n" + BqClose + b) ==
            a + "> " + x + BlockquoteTags(b)
  {
    BqTagsOk();
    TagBlock(a, x, b, BqOpen, BqClose);
  }

  lemma {:induction false} TagBlock(a: string, x: string, b: string, o: string, c: string)
    requires TagsOk(o, c) && '<' !in a && '\n' !in x
    ensures TagPass(a + o + "\n" + x + "\n" + c + b, o, c) == a + "> " + x + TagPass(b, o, c)
  {
    var m := o + "\n" + x + "\n" + c + b;
    var t := TagPass(b, o, c);
    TagPassBlock(x, b, o, c);
    TagPassSkips(a, m, o, c);
    RegroupBlock(a, o, x, c, b);
    Regroup3(a, "> ", x, t);
  }

  /** The three-line form after a prefix, grouped as prefix and match. */
  lemma {:induction false} RegroupBlock(a: string, o: string, x: string, c: string, b: string)
    ensures a + o + "\n" + x + "\n" + c + b == a + (o + "\n" + x + "\n" + c + b)
  {
  }

  /** The three-line form at the very start of the text. */
  lemma {:induction false} TagPassBlock(x: string, b: string, o: string, c: string)
    requires TagsOk(o, c) && '\n' !in x
    ensures TagPass(o + "\n" + x + "\n" + c + b, o, c) == "> " + x + TagPass(b, o, c)
  {
    var m := o + "\n" + x + "\n" + c + b;
    TagAtBlock(x, b, o, c);
    TagPassStep(m, o, c, TagAt(m, o, c).value);
    assert m[|o| + 1 + |x| + 1 + |c|..] == b;
  }

  /**
   * The form written on one line becomes `> ` followed by everything up to
   * the last closing tag.
   */
  lemma {:induction false} BlockquoteInline(a: string, x: string)
    requires '<' !in a && '\n' !in x
    ensures BlockquoteTags(a + BqOpen + x + BqClose) == a + "> " + x
  {
    BqTagsOk();
    TagInline(a, x, BqOpen, BqClose);
  }

  lemma {:induction false} TagInline(a: string, x: string, o: string, c: string)
    requires TagsOk(o, c) && '<' !in a && '\n' !in x
    ensures TagPass(a + o + x + c, o, c) == a + "> " + x
  {
    var m := o + x + c;
    TagPassInline(x, o, c);
    TagPassSkips(a, m, o, c);
    Regroup3(a, o, x, c);
    Regroup2(a, "> ", x);
  }

  /** The one-line form at the very start of the text. */
  lemma {:induction false} TagPassInline(x: string, o: string, c: string)
    requires TagsOk(o, c) && '\n' !in x
    ensures TagPass(o + x + c, o, c) == "> " + x
  {
    TagAtInline(x, o, c);
    TagPassWhole(o + x + c, x, o, c);
  }

  /** A match covering the whole text leaves only `> ` and the group. */
  lemma {:induction false} TagPassWhole(m: string, x: string, o: string, c: string)
    requires |m| > 0 && TagAt(m, o, c) == Some(Span(x, |m|))
    ensures TagPass(m, o, c) == "> " + x
  {
    TagPassStep(m, o, c, Span(x, |m|));
    assert m[|m|..] == "";
    assert TagPass("", o, c) == "";
  }

  /** LineEnd is the position of the first newline. */
  lemma {:induction false} LineEndIs(s: string, e: nat)
    requires e <= |s| && '\n' !in s[..e] && (e < |s| ==> s[e] == '\n')
    ensures LineEnd(s) == e
  {
  }

  /**
   * Quote runs are rewritten longest first, so each kind of emphasis keeps
   * its own number of quotes: five quotes give three stars, three give two,
   * two give one.
   */
  lemma {:induction false} QuoteRunsEmphasis(x: string, n: nat)
    requires n == 2 || n == 3 || n == 5
    requires |x| > 0 && '\'' !in x && '\n' !in x
    ensures QuoteRuns(Repeat('\'', n) + x + Repeat('\'', n)) ==
            Repeat('*', StarsFor(n)) + x + Repeat('*', StarsFor(n))
  {
    if n == 5 {
      QuoteRuns5(x);
    } else if n == 3 {
      QuoteRuns3(x);
    } else {
      QuoteRuns2(x);
    }
  }

  lemma {:induction false} QuoteRuns5(x: string)
    requires |x| > 0 && '\'' !in x && '\n' !in x
    ensures QuoteRuns(Repeat('\'', 5) + x + Repeat('\'', 5)) == Repeat('*', StarsFor(5)) + x + Repeat('*', StarsFor(5))
  {
    assert StarsFor(5) == 3;
    var q := Repeat('\'', 5);
    var out := Repeat('*', 3) + x + Repeat('*', 3);
    assert q == "'''''" && Repeat('*', 3) == "***";
    PairRewriteWhole(x, "'''''", "'''''", Tag("***", "***"));
    assert '\'' !in out;
    PairRewriteIdentity(out, "'''", "'''", Tag("**", "**"));
    PairRewriteIdentity(out, "''", "''", Tag("*", "*"));
  }

  lemma {:induction false} QuoteRuns3(x: string)
    requires |x| > 0 && '\'' !in x && '\n' !in x
    ensures QuoteRuns(Repeat('\'', 3) + x + Repeat('\'', 3)) == Repeat('*', StarsFor(3)) + x + Repeat('*', StarsFor(3))
  {
    assert StarsFor(3) == 2;
    var q := Repeat('\'', 3);
    var out := Repeat('*', 2) + x + Repeat('*', 2);
    assert q == "'''" && Repeat('*', 2) == "**";
    assert PairRewrite(q + x + q, "'''''", "'''''", Tag("***", "***")) == q + x + q by {
      RunAbsent('\'', x, 3, 5);
      assert Repeat('\'', 5) == "'''''";
      PairRewriteNoOpening(q + x + q, "'''''", "'''''", Tag("***", "***"));
    }
    PairRewriteWhole(x, "'''", "'''", Tag("**", "**"));
    assert '\'' !in out;
    PairRewriteIdentity(out, "''", "''", Tag("*", "*"));
  }

  lemma {:induction false} QuoteRuns2(x: string)
    requires |x| > 0 && '\'' !in x && '\n' !in x
    ensures QuoteRuns(Repeat('\'', 2) + x + Repeat('\'', 2)) == Repeat('*', StarsFor(2)) + x + Repeat('*', StarsFor(2))
  {
    assert StarsFor(2) == 1;
    var q := Repeat('\'', 2);
    var s := q + x + q;
    assert q == "''" && Repeat('*', 1) == "*";
    assert PairRewrite(s, "'''''", "'''''", Tag("***", "***")) == s by {
      RunAbsent('\'', x, 2, 5);
      assert Repeat('\'', 5) == "'''''";
      PairRewriteNoOpening(s, "'''''", "'''''", Tag("***", "***"));
    }
    assert PairRewrite(s, "'''", "'''", Tag("**", "**")) == s by {
      RunAbsent('\'', x, 2, 3);
      assert Repeat('\'', 3) == "'''";
      PairRewriteNoOpening(s, "'''", "'''", Tag("**", "**"));
    }
    PairRewriteWhole(x, "''", "''", Tag("*", "*"));
  }

  /**
   * The quote passes act pair by pair: `a`, a run of five, three or two
   * quotes around a quote-free text on one line, and `b` become `a`, the
   * stars around that text, and the rewrite of `b`, when `b` does not start
   * with a quote.
   */
  lemma {:induction false} QuoteRunsStep(a: string, x: string, b: string, n: nat)
    requires n == 2 || n == 3 || n == 5
    requires '\'' !in a && |x| > 0 && '\'' !in x && '\n' !in x && !Leads(b, '\'')
    ensures QuoteRuns(a + Repeat('\'', n) + x + Repeat('\'', n) + b) ==
            a + Repeat('*', StarsFor(n)) + x + Repeat('*', StarsFor(n)) + QuoteRuns(b)
  {
    if n == 5 {
      assert Repeat('\'', n) == "'''''" && Repeat('*', StarsFor(n)) == "***";
      QuoteStep5(a, x, b);
    } else if n == 3 {
      assert Repeat('\'', n) == "'''" && Repeat('*', StarsFor(n)) == "**";
      QuoteStep3(a, x, b);
    } else {
      assert Repeat('\'', n) == "''" && Repeat('*', StarsFor(n)) == "*";
      QuoteStep2(a, x, b);
    }
  }

  lemma {:induction false} QuoteStep5(a: string, x: string, b: string)
    requires '\'' !in a && |x| > 0 && '\'' !in x && '\n' !in x
    ensures QuoteRuns(a + "'''''" + x + "'''''" + b) == a + "***" + x + "***" + QuoteRuns(b)
  {
    var t := "***" + x + "***";
    var b5 := PairRewrite(b, "'''''", "'''''", Tag("***", "***"));
    var b3 := PairRewrite(b5, "'''", "'''", Tag("**", "**"));
    PairRewriteMatch(a, x, b, "'''''", "'''''", Tag("***", "***"));
    assert '\'' !in a + t;
    PairRewriteSkips(a + t, b5, "'''", "'''", Tag("**", "**"));
    PairRewriteSkips(a + t, b3, "''", "''", Tag("*", "*"));
    Regroup4(a, "***", x, "***", QuoteRuns(b));
  }

  lemma {:induction false} QuoteStep3(a: string, x: string, b: string)
    requires '\'' !in a && |x| > 0 && '\'' !in x && '\n' !in x && !Leads(b, '\'')
    ensures QuoteRuns(a + "'''" + x + "'''" + b) == a + "**" + x + "**" + QuoteRuns(b)
  {
    var t := "**" + x + "**";
    var b5 := PairRewrite(b, "'''''", "'''''", Tag("***", "***"));
    var b3 := PairRewrite(b5, "'''", "'''", Tag("**", "**"));
    assert "'''''" == Repeat('\'', 5) && "'''" == Repeat('\'', 3);
    RunPairSkip(a, "'''", x, b, "'''''", "'''''", Tag("***", "***"), '\'');
    PairRewriteMatch(a, x, b5, "'''", "'''", Tag("**", "**"));
    assert '\'' !in a + t;
    PairRewriteSkips(a + t, b3, "''", "''", Tag("*", "*"));
    Regroup4(a, "**", x, "**", QuoteRuns(b));
  }

  lemma {:induction false} QuoteStep2(a: string, x: string, b: string)
    requires '\'' !in a && |x| > 0 && '\'' !in x && '\n' !in x && !Leads(b, '\'')
    ensures QuoteRuns(a + "''" + x + "''" + b) == a + "*" + x + "*" + QuoteRuns(b)
  {
    var b5 := PairRewrite(b, "'''''", "'''''", Tag("***", "***"));
    var b3 := PairRewrite(b5, "'''", "'''", Tag("**", "**"));
    assert "'''''" == Repeat('\'', 5) && "'''" == Repeat('\'', 3) && "''" == Repeat('\'', 2);
    RunPairSkip(a, "''", x, b, "'''''", "'''''", Tag("***", "***"), '\'');
    LeadKept(b, "'''''", "'''''", Tag("***", "***"), '\'');
    RunPairSkip(a, "''", x, b5, "'''", "'''", Tag("**", "**"), '\'');
    PairRewriteMatch(a, x, b3, "''", "''", Tag("*", "*"));
    Regroup4(a, "*", x, "*", QuoteRuns(b));
  }

  /** Stars that a run of `n` quotes turns into. */
  function StarsFor(n: nat): nat
  {
    if n == 5 then 3 else if n == 3 then 2 else 1
  }

  /** A comment is removed together with its delimiters; the scan resumes after it. */
  lemma {:induction false} StripCommentsRemoves(a: string, x: string, b: string)
    requires '<' !in a && '-' !in x && '\n' !in x
    ensures StripComments(a + "<!--" + x + "-->" + b) == a + StripComments(b)
  {
    PairRewriteMatch(a, x, b, "<!--", "-->", _ => "");
  }

  /**
   * A blockquote written on three lines reaches Parse as a single `$ ` line:
   * the tag pass gives `> x` and the quote-line pass gives `$ x`.
   */
  lemma {:induction false} BlockquoteBecomesQuoteLine(x: string)
    requires '\n' !in x && '<' !in x && '\'' !in x && '*' !in x
    ensures ParseNoEscape(BqOpen + "\n" + x + "\n" + BqClose) == "$ " + x
  {
    BqTagsOk();
    ThreeLineQuote(x, BqOpen, BqClose);
  }

  lemma {:induction false} ThreeLineQuote(x: string, o: string, c: string)
    requires TagsOk(o, c) && '\n' !in x && '<' !in x && '\'' !in x && '*' !in x
    ensures StripComments(QuoteLines(TagPass(QuoteRuns(StarLines(o + "\n" + x + "\n" + c)), o, c)))
            == "$ " + x
  {
    var s := o + "\n" + x + "\n" + c;
    FrontPassesKeep(x, o, c);
    assert TagPass(s, o, c) == "> " + x by {
      Unpadded(o, x, c);
      TagBlock("", x, "", o, c);
    }
    QuoteLineTail(x);
  }

  lemma {:induction false} Unpadded(o: string, x: string, c: string)
    ensures "" + o + "\n" + x + "\n" + c + "" == o + "\n" + x + "\n" + c
  {
  }

  /** The passes before the tag pass leave the three-line form alone. */
  lemma {:induction false} FrontPassesKeep(x: string, o: string, c: string)
    requires TagsOk(o, c) && '\n' !in x && '\'' !in x && '*' !in x
    ensures QuoteRuns(StarLines(o + "\n" + x + "\n" + c)) == o + "\n" + x + "\n" + c
  {
    var s := o + "\n" + x + "\n" + c;
    ThreeLines(o, x, c);
    assert !StartsWith(o, "*") && !StartsWith(c, "*") && !StartsWith(x, "*") by {
      assert o[..1][0] == '<' && c[..1][0] == '<';
      if |x| > 0 {
        assert x[..1][0] == x[0];
      }
    }
    assert forall i :: 0 <= i < |Lines(s)| ==> !StartsWith(Lines(s)[i], "*");
    LinePrefixPassIdentity(s, "*", "%", "");
    assert '\'' !in s;
    PairRewriteIdentity(s, "'''''", "'''''", Tag("***", "***"));
    PairRewriteIdentity(s, "'''", "'''", Tag("**", "**"));
    PairRewriteIdentity(s, "''", "''", Tag("*", "*"));
  }

  /** The last two passes turn `> x` into `$ x`. */
  lemma {:induction false} QuoteLineTail(x: string)
    requires '\n' !in x && '<' !in x
    ensures StripComments(QuoteLines("> " + x)) == "$ " + x
  {
    var y := "> " + x;
    assert QuoteLines(y) == "$ " + x by {
      assert StartsWith(y, "> ");
      MapLinesOne(y, l => PrefixRewrite(l, "> ", "$ ", ""));
      assert y[|"> "|..] == x;
    }
    assert '<' !in "$ " + x;
    PairRewriteIdentity("$ " + x, "<!--", "-->", _ => "");
  }

  /** The lines of a text made of three newline-free lines. */
  lemma {:induction false} ThreeLines(a: string, b: string, c: string)
    requires '\n' !in a && '\n' !in b && '\n' !in c
    ensures Lines(a + "\n" + b + "\n" + c) == [a, b, c]
  {
    assert a + "\n" + b + "\n" + c == a + "\n" + (b + "\n" + c);
    LinesOfBreak(a, b + "\n" + c);
    LinesOfBreak(b, c);
    LinesOfLine(c);
  }

  /** A single line is mapped by applying the line function to it. */
  lemma {:induction false} MapLinesOne(l: string, f: string -> string)
    requires '\n' !in l
    ensures MapLines(l, f) == f(l)
  {
    LinesOfLine(l);
    assert seq(1, i requires 0 <= i < 1 => f([l][i])) == [f(l)];
  }
}
