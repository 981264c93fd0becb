/**
 * The passes that Parse runs over the joined text once the block scan is done
 * (wikidown.go:201-269): horizontal rules, quote lines, emphasis, entry links
 * and paragraph breaks. The URL, e-mail, video and markdown-link passes of
 * wikidown.go:223-252 are not modelled; Parse takes them as a parameter.
 */
module Inline {
  import opened Text
  import opened Scan

  /** `----` to `<hr>` (wikidown.go:204-205). */
  function Rules(s: string): string
  {
    Replace(s, "----", "<hr>")
  }

  /** `(?m)^\$ (.*)` to `<blockquote>$1</blockquote>` (wikidown.go:208-209). */
  function QuoteBlocks(s: string): string
  {
    LinePrefixPass(s, "$ ", "<blockquote>", "</blockquote>")
  }

  /** Star runs to HTML, longest first (wikidown.go:212-221). */
  function Emphasis(s: string): string
  {
    var s3 := PairRewrite(s, "***", "***", Tag("<b><i>", "</i></b>"));
    var s2 := PairRewrite(s3, "**", "**", Tag("<b>", "</b>"));
    PairRewrite(s2, "*", "*", Tag("<i>", "</i>"))
  }

  /** The anchor that `[[x]]` becomes. */
  function EntryLink(x: string): string
  {
    "<a href=\"/entries/" + x + "\">" + x + "</a>"
  }

  /** `\[\[(.*?)\]\]` to a link to the entry (wikidown.go:254-255). */
  function EntryLinks(s: string): string
  {
    PairRewrite(s, "[[", "]]", EntryLink)
  }

  /** `(?m)^<p>$` removed: a line that is only a paragraph tag becomes empty (wikidown.go:264-265). */
  function Unhang(l: string): string
  {
    if l == "<p>" then "" else l
  }

  /** A `<p>` directly followed by a heading tag `<h1>` to `<h5>`. */
  predicate HeadingAfterParagraph(l: string)
  {
    |l| >= 6 && l[..5] == "<p><h" && '1' <= l[5] <= '5'
  }

  /**
   * `<p>(<h[1-5].*)` to `$1` on one line: the leftmost `<p>` that opens a
   * heading is dropped. The match runs to the end of the line, so a line
   * loses at most one tag and no match spans two lines (wikidown.go:268-269).
   */
  function DropHeadingParagraph(l: string): string
    decreases |l|
  {
    if |l| < 6 then l
    else if HeadingAfterParagraph(l) then l[3..]
    else [l[0]] + DropHeadingParagraph(l[1..])
  }

  /** The first `<p>` in front of a heading starts at `k`. */
  predicate FirstHeadingAt(l: string, k: nat)
  {
    k + 6 <= |l| && HeadingAfterParagraph(l[k..]) &&
    forall j :: 0 <= j < k ==> !HeadingAfterParagraph(l[j..])
  }

  /** The line is kept, or loses exactly one `<p>`, the first one in front of a heading. */
  lemma {:induction false} DropHeadingParagraphSpec(l: string)
    ensures DropHeadingParagraph(l) == l ||
      exists k: nat :: FirstHeadingAt(l, k) && DropHeadingParagraph(l) == l[..k] + l[k + 3..]
    decreases |l|
  {
    if |l| >= 6 {
      if HeadingAfterParagraph(l) {
        assert l[0..] == l && l[..0] + l[3..] == l[3..];
        assert FirstHeadingAt(l, 0);
      } else {
        var u := l[1..];
        DropHeadingParagraphSpec(u);
        if DropHeadingParagraph(u) == u {
          assert [l[0]] + u == l;
        } else {
          var k: nat :| FirstHeadingAt(u, k) && DropHeadingParagraph(u) == u[..k] + u[k + 3..];
          DropHeadingShift(l, k);
        }
      }
    }
  }

  lemma {:induction false} DropHeadingShift(l: string, k: nat)
    requires |l| >= 6 && !HeadingAfterParagraph(l)
    requires FirstHeadingAt(l[1..], k) && DropHeadingParagraph(l[1..]) == l[1..][..k] + l[1..][k + 3..]
    ensures FirstHeadingAt(l, k + 1) && DropHeadingParagraph(l) == l[..k + 1] + l[k + 1 + 3..]
  {
    var u := l[1..];
    assert l[k + 1..] == u[k..];
    forall j | 0 <= j < k + 1 ensures !HeadingAfterParagraph(l[j..]) {
      if j > 0 {
        assert l[j..] == u[j - 1..];
      }
    }
    assert [l[0]] + (u[..k] + u[k + 3..]) == l[..k + 1] + l[k + 1 + 3..];
  }

  /**
   * The paragraph passes (wikidown.go:261-269): every newline gets a `<p>`
   * after it, lines that are only `<p>` are emptied, and a `<p>` in front of
   * a heading is dropped.
   */
  function Paragraphs(s: string): string
  {
    var withP := Replace(s, "\n", "\n<p>");
    MapLines(MapLines(withP, Unhang), DropHeadingParagraph)
  }

  /** All of the post-join passes, with the passes this model leaves out given as `links`. */
  function AfterJoin(s: string, links: string -> string): string
  {
    Paragraphs(EntryLinks(links(Emphasis(QuoteBlocks(Rules(s))))))
  }

  // ---------------------------------------------------------------------------
  // Properties

  /** No `----` survives the rule pass. */
  lemma {:induction false} RulesLeaveNone(s: string)
    ensures !Contains(Rules(s), "----")
  {
    assert !Contains("<hr>", "----") by {
      assert "<hr>"[0..4][0] == '<';
    }
    ReplaceLeavesNoNew(s, "----", "<hr>", "----");
  }

  /** A line `$ x` becomes `<blockquote>x</blockquote>`; every other line is kept. */
  lemma {:induction false} QuoteBlocksSpec(s: string)
    ensures |Lines(QuoteBlocks(s))| == |Lines(s)|
    ensures forall i :: 0 <= i < |Lines(s)| ==>
      Lines(QuoteBlocks(s))[i] ==
        if StartsWith(Lines(s)[i], "$ ") then "<blockquote>" + Lines(s)[i][2..] + "</blockquote>"
        else Lines(s)[i]
  {
    LinePrefixPassLines(s, "$ ", "<blockquote>", "</blockquote>");
  }

  /** The tags a run of `n` stars becomes, for n = 3, 2, 1. */
  function EmOpen(n: nat): string
  {
    if n == 3 then "<b><i>" else if n == 2 then "<b>" else "<i>"
  }

  function EmClose(n: nat): string
  {
    if n == 3 then "</i></b>" else if n == 2 then "</b>" else "</i>"
  }

  /**
   * Star runs of length three, two and one around a star-free text on one
   * line become bold italic, bold and italic.
   */
  lemma {:induction false} EmphasisRuns(x: string, n: nat)
    requires 1 <= n <= 3
    requires |x| > 0 && '*' !in x && '\n' !in x
    ensures Emphasis(Repeat('*', n) + x + Repeat('*', n)) == EmOpen(n) + x + EmClose(n)
  {
    if n == 3 {
      Emphasis3(x, n);
    } else if n == 2 {
      Emphasis2(x, n);
    } else {
      Emphasis1(x, n);
    }
  }

  lemma {:induction false} Emphasis3(x: string, n: nat)
    requires n == 3
    requires |x| > 0 && '*' !in x && '\n' !in x
    ensures Emphasis(Repeat('*', n) + x + Repeat('*', n)) == EmOpen(n) + x + EmClose(n)
  {
    assert EmOpen(n) == "<b><i>" && EmClose(n) == "</i></b>";
    var q := Repeat('*', n);
    var out := "<b><i>" + x + "</i></b>";
    assert q == "***";
    PairRewriteWhole(x, "***", "***", Tag("<b><i>", "</i></b>"));
    assert '*' !in out;
    PairRewriteIdentity(out, "**", "**", Tag("<b>", "</b>"));
    PairRewriteIdentity(out, "*", "*", Tag("<i>", "</i>"));
  }

  lemma {:induction false} Emphasis2(x: string, n: nat)
    requires n == 2
    requires |x| > 0 && '*' !in x && '\n' !in x
    ensures Emphasis(Repeat('*', n) + x + Repeat('*', n)) == EmOpen(n) + x + EmClose(n)
  {
    assert EmOpen(n) == "<b>" && EmClose(n) == "</b>";
    var q := Repeat('*', n);
    var out := "<b>" + x + "</b>";
    assert q == "**";
    assert PairRewrite(q + x + q, "***", "***", Tag("<b><i>", "</i></b>")) == q + x + q by {
      RunAbsent('*', x, 2, 3);
      assert Repeat('*', 3) == "***";
      PairRewriteNoOpening(q + x + q, "***", "***", Tag("<b><i>", "</i></b>"));
    }
    PairRewriteWhole(x, "**", "**", Tag("<b>", "</b>"));
    assert '*' !in out;
    PairRewriteIdentity(out, "*", "*", Tag("<i>", "</i>"));
  }

  lemma {:induction false} Emphasis1(x: string, n: nat)
    requires n == 1
    requires |x| > 0 && '*' !in x && '\n' !in x
    ensures Emphasis(Repeat('*', n) + x + Repeat('*', n)) == EmOpen(n) + x + EmClose(n)
  {
    assert EmOpen(n) == "<i>" && EmClose(n) == "</i>";
    var q := Repeat('*', n);
    var s := q + x + q;
    assert q == "*";
    assert PairRewrite(s, "***", "***", Tag("<b><i>", "</i></b>")) == s by {
      RunAbsent('*', x, 1, 3);
      assert Repeat('*', 3) == "***";
      PairRewriteNoOpening(s, "***", "***", Tag("<b><i>", "</i></b>"));
    }
    assert PairRewrite(s, "**", "**", Tag("<b>", "</b>")) == s by {
      RunAbsent('*', x, 1, 2);
      assert Repeat('*', 2) == "**";
      PairRewriteNoOpening(s, "**", "**", Tag("<b>", "</b>"));
    }
    PairRewriteWhole(x, "*", "*", Tag("<i>", "</i>"));
  }

  /**
   * The emphasis passes act pair by pair: `a`, a run of three, two or one
   * stars around a star-free text on one line, and `b` become `a`, the tags
   * around that text, and the rewrite of `b`, when `b` does not start with a
   * star.
   */
  lemma {:induction false} EmphasisStep(a: string, x: string, b: string, n: nat)
    requires 1 <= n <= 3
    requires '*' !in a && |x| > 0 && '*' !in x && '\n' !in x && !Leads(b, '*')
    ensures Emphasis(a + Repeat('*', n) + x + Repeat('*', n) + b) ==
            a + EmOpen(n) + x + EmClose(n) + Emphasis(b)
  {
    if n == 3 {
      assert Repeat('*', n) == "***";
      EmphasisStep3(a, x, b);
    } else if n == 2 {
      assert Repeat('*', n) == "**";
      EmphasisStep2(a, x, b);
    } else {
      assert Repeat('*', n) == "*";
      EmphasisStep1(a, x, b);
    }
  }

  lemma {:induction false} EmphasisStep3(a: string, x: string, b: string)
    requires '*' !in a && |x| > 0 && '*' !in x && '\n' !in x
    ensures Emphasis(a + "***" + x + "***" + b) == a + "<b><i>" + x + "</i></b>" + Emphasis(b)
  {
    var t := "<b><i>" + x + "</i></b>";
    var b3 := PairRewrite(b, "***", "***", Tag("<b><i>", "</i></b>"));
    var b2 := PairRewrite(b3, "**", "**", Tag("<b>", "</b>"));
    PairRewriteMatch(a, x, b, "***", "***", Tag("<b><i>", "</i></b>"));
    assert '*' !in a + t;
    PairRewriteSkips(a + t, b3, "**", "**", Tag("<b>", "</b>"));
    PairRewriteSkips(a + t, b2, "*", "*", Tag("<i>", "</i>"));
    Regroup4(a, "<b><i>", x, "</i></b>", Emphasis(b));
  }

  lemma {:induction false} EmphasisStep2(a: string, x: string, b: string)
    requires '*' !in a && |x| > 0 && '*' !in x && '\n' !in x && !Leads(b, '*')
    ensures Emphasis(a + "**" + x + "**" + b) == a + "<b>" + x + "</b>" + Emphasis(b)
  {
    var t := "<b>" + x + "</b>";
    var b3 := PairRewrite(b, "***", "***", Tag("<b><i>", "</i></b>"));
    var b2 := PairRewrite(b3, "**", "**", Tag("<b>", "</b>"));
    assert "***" == Repeat('*', 3) && "**" == Repeat('*', 2);
    RunPairSkip(a, "**", x, b, "***", "***", Tag("<b><i>", "</i></b>"), '*');
    PairRewriteMatch(a, x, b3, "**", "**", Tag("<b>", "</b>"));
    assert '*' !in a + t;
    PairRewriteSkips(a + t, b2, "*", "*", Tag("<i>", "</i>"));
    Regroup4(a, "<b>", x, "</b>", Emphasis(b));
  }

  lemma {:induction false} EmphasisStep1(a: string, x: string, b: string)
    requires '*' !in a && |x| > 0 && '*' !in x && '\n' !in x && !Leads(b, '*')
    ensures Emphasis(a + "*" + x + "*" + b) == a + "<i>" + x + "</i>" + Emphasis(b)
  {
    var b3 := PairRewrite(b, "***", "***", Tag("<b><i>", "</i></b>"));
    var b2 := PairRewrite(b3, "**", "**", Tag("<b>", "</b>"));
    assert "***" == Repeat('*', 3) && "**" == Repeat('*', 2) && "*" == Repeat('*', 1);
    RunPairSkip(a, "*", x, b, "***", "***", Tag("<b><i>", "</i></b>"), '*');
    LeadKept(b, "***", "***", Tag("<b><i>", "</i></b>"), '*');
    RunPairSkip(a, "*", x, b3, "**", "**", Tag("<b>", "</b>"), '*');
    PairRewriteMatch(a, x, b2, "*", "*", Tag("<i>", "</i>"));
    Regroup4(a, "<i>", x, "</i>", Emphasis(b));
  }

  /** `[[x]]` becomes a link to entry `x`; the scan resumes after the closing brackets. */
  lemma {:induction false} EntryLinksMatch(a: string, x: string, b: string)
    requires '[' !in a && ']' !in x && '\n' !in x
    ensures EntryLinks(a + "[[" + x + "]]" + b) == a + EntryLink(x) + EntryLinks(b)
  {
    PairRewriteMatch(a, x, b, "[[", "]]", EntryLink);
  }

  /** Lines of the text after the newline replacement: every line but the first gains `<p>`. */
  function Opened(ls: seq<string>): (r: seq<string>)
    requires |ls| >= 1
  {
    [ls[0]] + seq(|ls| - 1, i requires 0 <= i < |ls| - 1 => "<p>" + ls[i + 1])
  }

  /** The lines of `p + s`, for `p` without a newline: `p` joins the first line. */
  lemma {:induction false} LinesOfPrefix(p: string, s: string)
    requires '\n' !in p
    ensures Lines(p + s) == [p + Lines(s)[0]] + Lines(s)[1..]
    decreases |p|
  {
    if |p| > 0 {
      LinesOfPrefix(p[1..], s);
      assert (p + s)[1..] == p[1..] + s;
      assert [p[0]] + (p[1..] + Lines(s)[0]) == p + Lines(s)[0];
    } else {
      assert p + s == s;
      assert p + Lines(s)[0] == Lines(s)[0];
      assert Lines(s) == [Lines(s)[0]] + Lines(s)[1..];
    }
  }

  /** Replacing every newline by a newline and `<p>` adds `<p>` to every line but the first. */
  lemma {:induction false} OpenedLines(s: string)
    ensures Lines(Replace(s, "\n", "\n<p>")) == Opened(Lines(s))
    decreases |s|
  {
    if |s| > 0 {
      var t := s[1..];
      var r := Replace(t, "\n", "\n<p>");
      OpenedLines(t);
      var lt := Lines(t);
      if s[0] == '\n' {
        assert s[..1] == "\n";
        assert Replace(s, "\n", "\n<p>") == "\n" + ("<p>" + r);
        LinesOfBreak("", "<p>" + r);
        assert "" + "\n" + ("<p>" + r) == "\n" + ("<p>" + r);
        LinesOfPrefix("<p>", r);
        assert Lines(s) == [""] + lt;
        OpenedBreak(lt);
      } else {
        assert s[..1] != "\n" by {
          assert s[..1][0] == s[0];
        }
        assert Replace(s, "\n", "\n<p>") == [s[0]] + r;
        LinesOfPrefix([s[0]], r);
        assert Lines(s) == [[s[0]] + lt[0]] + lt[1..];
        OpenedExtend([s[0]], lt);
      }
    }
  }

  /** A leading empty line: every line of `ls` gains `<p>`. */
  lemma {:induction false} OpenedBreak(ls: seq<string>)
    requires |ls| >= 1
    ensures Opened([""] + ls) == [""] + (["<p>" + Opened(ls)[0]] + Opened(ls)[1..])
  {
    var o := Opened(ls);
    assert forall i :: 0 < i < |ls| ==> o[i] == "<p>" + ls[i];
  }

  /** Text put before the first line stays on that line. */
  lemma {:induction false} OpenedExtend(p: string, ls: seq<string>)
    requires |ls| >= 1
    ensures Opened([p + ls[0]] + ls[1..]) == [p + Opened(ls)[0]] + Opened(ls)[1..]
  {
    var o := Opened(ls);
    assert forall i :: 0 < i < |ls| ==> o[i] == "<p>" + ls[i];
  }

  /**
   * What the paragraph passes do to each line: the first line gets no `<p>`;
   * every other line becomes empty when it was empty and otherwise gains a
   * `<p>`, which is dropped again in front of a heading.
   */
  lemma {:induction false} ParagraphsLines(s: string)
    ensures |Lines(Paragraphs(s))| == |Lines(s)|
    ensures Lines(Paragraphs(s))[0] == DropHeadingParagraph(Unhang(Lines(s)[0]))
    ensures forall i :: 1 <= i < |Lines(s)| ==>
      Lines(Paragraphs(s))[i] == if Lines(s)[i] == "" then "" else DropHeadingParagraph("<p>" + Lines(s)[i])
  {
    var withP := Replace(s, "\n", "\n<p>");
    OpenedLines(s);
    var ls := Lines(s);
    var unhung := MapLines(withP, Unhang);
    NoNewlineKept();
    LinesOfMapLines(withP, Unhang);
    LinesOfMapLines(unhung, DropHeadingParagraph);
    forall i | 1 <= i < |ls|
      ensures Lines(Paragraphs(s))[i] == if ls[i] == "" then "" else DropHeadingParagraph("<p>" + ls[i])
    {
      assert Lines(withP)[i] == "<p>" + ls[i];
      if ls[i] != "" {
        assert "<p>" + ls[i] != "<p>" by {
          assert |"<p>" + ls[i]| > 3;
        }
      } else {
        assert "<p>" + ls[i] == "<p>";
      }
    }
  }

  /** Neither line rewrite of the paragraph passes introduces a newline. */
  lemma {:induction false} NoNewlineKept()
    ensures forall l :: '\n' !in l ==> '\n' !in Unhang(l)
    ensures forall l :: '\n' !in l ==> '\n' !in DropHeadingParagraph(l)
  {
    forall l | '\n' !in l
      ensures '\n' !in DropHeadingParagraph(l)
    {
      var r := DropHeadingParagraph(l);
      DropHeadingParagraphSpec(l);
      if r != l {
        var k: nat :| FirstHeadingAt(l, k) && r == l[..k] + l[k + 3..];
        assert forall c :: c in r ==> c in l;
      }
    }
  }

  /** A line that opens a heading loses the `<p>` it was given. */
  lemma {:induction false} HeadingLineUnwrapped(l: string)
    requires |l| >= 3 && l[..2] == "<h" && '1' <= l[2] <= '5'
    ensures DropHeadingParagraph("<p>" + l) == l
  {
    var s := "<p>" + l;
    assert s[..5] == "<p><h";
    assert HeadingAfterParagraph(s);
    assert s[3..] == l;
  }

  /** A line free of `<` keeps the `<p>` it was given. */
  lemma {:induction false} PlainLineWrapped(l: string)
    requires '<' !in l
    ensures DropHeadingParagraph("<p>" + l) == "<p>" + l
  {
    var s := "<p>" + l;
    KeepsWithoutTag(l);
    if |s| >= 6 {
      assert s[3] == l[0];
      assert !HeadingAfterParagraph(s);
      assert s[1..] == "p>" + l;
      var u := s[1..];
      assert !HeadingAfterParagraph(u) by {
        assert u[0] == 'p';
      }
      assert u[1..] == ">" + l;
      var v := u[1..];
      assert !HeadingAfterParagraph(v) by {
        assert v[0] == '>';
      }
      assert v[1..] == l;
      if |u| >= 6 {
        if |v| >= 6 {
          assert DropHeadingParagraph(v) == [v[0]] + l;
        }
      }
    }
  }

  /** A text free of `<` holds no tag to drop. */
  lemma {:induction false} KeepsWithoutTag(l: string)
    requires '<' !in l
    ensures DropHeadingParagraph(l) == l
    decreases |l|
  {
    if |l| >= 6 {
      assert l[0] != '<';
      assert l[1..] == l[1..];
      KeepsWithoutTag(l[1..]);
      assert [l[0]] + l[1..] == l;
    }
  }
}
