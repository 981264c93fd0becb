/**
 * The two entry points of the converter: Parse (wikidown.go:57-270), which
 * turns file links into images and then runs the block scanner over the
 * lines held in an array, followed by the inline passes; and ParseAll
 * (wikidown.go:16-23), which normalises the wiki syntax, escapes HTML,
 * builds the headings and the table of contents, and then calls Parse.
 */
module Pipeline {
  import opened Text
  import opened Images
  import Blocks
  import opened Inline
  import opened Headings
  import opened Normalize
  import opened Escape

  /**
   * The lines the block scanner works on: file links already turned into
   * images, carriage returns removed, split at newlines (wikidown.go:61-73).
   */
  function BlockLines(s: string): seq<string>
  {
    Lines(Replace(FileLinks(s), "\r", ""))
  }

  /**
   * Parse: the block scanner rewrites the lines in place, the lines are
   * joined again, and the inline passes run over the result. `links` stands
   * for the passes of wikidown.go:223-252, which this model leaves out.
   */
  method Parse(s: string, fs: Files, links: string -> string) returns (out: string)
    requires Blocks.ImagesOk(BlockLines(s))
    ensures out == AfterJoin(Join(Blocks.Blocks(BlockLines(s), fs)), links)
  {
    var ls := BlockLines(s);
    var a := new string[|ls|](k requires 0 <= k < |ls| => ls[k]);
    assert a[..] == ls;
    Blocks.BlockScan(a, fs);
    out := AfterJoin(Join(a[..]), links);
  }

  /** No line that reaches the block scanner holds a carriage return. */
  lemma {:induction false} NoCarriageReturn(s: string)
    ensures forall k :: 0 <= k < |BlockLines(s)| ==> '\r' !in BlockLines(s)[k]
  {
    var t := Replace(FileLinks(s), "\r", "");
    ReplaceDeletes(FileLinks(s), '\r');
    LinesJoin(Lines(t));
    JoinLines(t);
    forall k | 0 <= k < |Lines(t)| ensures '\r' !in Lines(t)[k] {
      LineInText(Lines(t), k);
    }
  }

  /** Every line is a piece of the text it was split from. */
  lemma {:induction false} LineInText(ls: seq<string>, k: nat)
    requires k < |ls|
    ensures forall c :: c in ls[k] ==> c in Join(ls)
    decreases |ls|
  {
    if |ls| > 1 {
      if k > 0 {
        LineInText(ls[1..], k - 1);
      }
    }
  }

  /** The text the heading pass sees: normalised wiki syntax, HTML-escaped. */
  function Prepared(s: string): string
  {
    HtmlEscape(ParseNoEscape(s))
  }

  /**
   * ParseAll: the table of contents comes from the words of the prepared text
   * once level-5 and level-4 headings are HTML; the page is Parse applied to
   * the text with every heading turned into HTML.
   */
  method ParseAll(s: string, fs: Files, links: string -> string) returns (out: string, toc: Toc)
    requires HeadingsClosed(Fields(Minor(Prepared(s))))
    requires Blocks.ImagesOk(BlockLines(Major(Minor(Prepared(s)))))
    ensures toc == TocOf(Fields(Minor(Prepared(s))), |Fields(Minor(Prepared(s)))|)
    ensures out == AfterJoin(Join(Blocks.Blocks(BlockLines(Major(Minor(Prepared(s)))), fs)), links)
  {
    var t := ParseNoEscape(s);
    t := HtmlEscape(t);
    t, toc := Header(t);
    out := Parse(t, fs, links);
  }

  /**
   * The heading pass never sees a raw `<`, `>` or quote of the input: the
   * only markup left after the normalisation is escaped.
   */
  lemma {:induction false} PreparedHasNoMarkup(s: string)
    ensures '<' !in Prepared(s) && '>' !in Prepared(s)
    ensures '"' !in Prepared(s) && '\'' !in Prepared(s)
  {
    EscapedHasNoMarkup(ParseNoEscape(s));
  }
}
