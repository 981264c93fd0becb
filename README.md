# wikidown in Dafny

wikidown turns wiki-style markup into HTML. `ParseAll` runs four stages in a fixed order:

1. `ParseNoEscape` rewrites wiki markup into internal markers. Lines starting with `*` become `%` lines. Quote runs become star runs. Blockquote tags become `$ ` lines. HTML comments are removed.
2. The text is HTML-escaped.
3. `Header` turns `==`-style headings into HTML and builds a table of contents.
4. `Parse` does the rest of the conversion:
   - It turns `[[File:…|thumb|…]]` links into images.
   - It removes carriage returns and splits the text into lines.
   - It rewrites those lines in place. List lines become list items. Every unordered and ordered run gets both its tags; a description run gets its `</dl>` unless it is still open at the end. Image lines become captioned figures, and a thumbnail missing for a wide original is written to disk, where later lines find it.
   - It joins the lines again.
   - It runs the inline passes: rules, quote blocks, emphasis, entry links and paragraphs.

`Emoticons` is a separate entry point. It replaces shortcodes by image tags from a fixed table.

The model has one module per stage:

- `Text` holds strings, lines and words. It models `strings.Replace`, `strings.Split`, `strings.Join` and `strings.Fields`.
- `Scan` models the regular expressions with three kinds of scanner:
  - a line-prefix rewrite, for patterns of the form `(?m)^X(.*)`;
  - a leftmost, non-greedy rewrite of a delimited pair, for `D(.*?)D`, which never crosses a line break;
  - the literal replace-all of `Text.Replace`.
- `Normalize` models `ParseNoEscape`.
- `Escape` models the HTML escaper.
- `Headings` models `Header`. Its word loop is a method.
- `Images` models the file-link pass and the figure rebuild.
- `Blocks` models the line loop of `Parse`. It is a method over an `array<string>`.
- `Inline` models the passes after the join.
- `Emoticons` models `Emoticons`.
- `Pipeline` holds `Parse` and `ParseAll`.

Each imperative loop is proved against a function that says, line by line or word by word, what the loop computes:

- `Blocks.BlockScan` is proved against `Blocks.Blocks`.
- `Headings.TocScan` is proved against `Headings.TocOf`.

The properties of the source are then proved about those functions.

Behaviours of the code worth knowing, which the model keeps as written:

- **Description runs at the end.** A description run still open after the last line gets no `</dl>`. Only unordered and ordered runs are closed at the end of the text (wikidown.go:193-198). `Blocks.DlBalanced` and `Blocks.OpenDescriptionAtEnd` state this.
- **Headings with spaces inside the markers.** A heading such as `== A ==` splits into the words `==`, `A` and `==`. None of them matches, so the heading gets its `<h2>` tag but no table-of-contents entry. `Headings.SpacedHeadingNotInToc` states this.
- **Minor headings inside a spaced heading.** A level-5 or level-4 heading on its own adds nothing to the table of contents. Inside a spaced level-2 heading it does: `==abc =====b===== c==` is rejoined by the loop at wikidown.go:296-297 and gives the section titled `abc <h5 id="b">b</h5> c`.
- **Images that are not JPEG.** Every original is decoded with `jpeg.Decode` (wikidown.go:99). For any other file the image is nil and `img.Bounds()` at wikidown.go:105 panics.
- The emoticon token `:doze` has no closing colon, so `:doze:` leaves a `:` after the image.
- A list line that also holds an image tag loses the figure, because the list rewrites start from the original line.
- A figure that shows a thumbnail names it `220px-` followed by the original file name, for example `220px-a.jpeg` for the JPEG `a.jpeg`. The thumbnail file actually written is `220px-a.jpg`. `Images.ThumbSourceNamesOtherFile` states this.

## Model

| member | source | states |
|---|---|---|
| Pipeline.ParseAll | wikidown.go:16-23 | The table of contents comes from the words of the normalised, escaped text, once level-5 and level-4 headings are HTML. The page is Parse of that text with every heading turned into HTML. |
| Pipeline.Parse | wikidown.go:57-270 | The output is the block-scan result for the lines of the text after file links become images and carriage returns are removed, joined again and put through the inline passes. |
| Pipeline.NoCarriageReturn | wikidown.go:69-73 | No line handed to the block scanner holds a carriage return. |
| Pipeline.PreparedHasNoMarkup | wikidown.go:18-20 | The text the heading pass sees holds no `<`, `>`, `"` or `'`. |
| Normalize.StarLinesSpec | wikidown.go:27-28 | Every line starting with `*` starts with `%` instead. No other line changes, and the number of lines stays the same. |
| Normalize.QuoteRunsEmphasis | wikidown.go:30-40 | A run of 5, 3 or 2 quotes around a quote-free word on one line becomes a run of 3, 2 or 1 stars. Longer runs are tried first. |
| Normalize.QuoteRuns5 | wikidown.go:31-32 | `'''''x'''''` becomes `***x***`. |
| Normalize.QuoteRuns3 | wikidown.go:35-36 | `'''x'''` becomes `**x**`. |
| Normalize.QuoteRuns2 | wikidown.go:39-40 | `''x''` becomes `*x*`. |
| Normalize.QuoteRunsStep | wikidown.go:30-40 | For every text: a quote-free `a`, a run of 5, 3 or 2 quotes around a quote-free `x` on one line, and a `b` not starting with a quote become `a`, the run of 3, 2 or 1 stars around `x`, and the rewrite of `b`. |
| Normalize.QuoteStep5 | wikidown.go:30-40 | `a'''''x'''''b` becomes `a***x***` followed by the rewrite of `b`. |
| Normalize.QuoteStep3 | wikidown.go:30-40 | `a'''x'''b` becomes `a**x**` followed by the rewrite of `b`. |
| Normalize.QuoteStep2 | wikidown.go:30-40 | `a''x''b` becomes `a*x*` followed by the rewrite of `b`. |
| Normalize.LastAtSpec | wikidown.go:43 | LastAt finds the last occurrence of the closing tag, which is where the greedy group stops. It fails only when there is no occurrence. |
| Normalize.TagAtBlock | wikidown.go:43-44 | A blockquote whose tags sit on their own lines matches with the inner line as its group. The optional line breaks are consumed. |
| Normalize.TagAtInline | wikidown.go:43-44 | A blockquote on one line matches with the text between the tags as its group. |
| Normalize.BlockquoteBlock | wikidown.go:43-44 | A three-line blockquote becomes `> x`, and the text before it is kept. |
| Normalize.BlockquoteInline | wikidown.go:43-44 | A one-line blockquote becomes `> x`. |
| Normalize.TagPassBlock | wikidown.go:43-44 | A three-line blockquote at the start becomes `> x`, and the scan resumes after the closing tag. |
| Normalize.TagPassInline | wikidown.go:43-44 | A text that is one one-line blockquote becomes `> x`. |
| Normalize.StripCommentsRemoves | wikidown.go:51-52 | A comment `<!--x-->` is removed, and the text around it is kept. |
| Normalize.BlockquoteBecomesQuoteLine | wikidown.go:25-55 | ParseNoEscape of a three-line blockquote is the internal quote line `$ x`. |
| Normalize.QuoteLineTail | wikidown.go:47-52 | `> x` becomes the internal quote line `$ x`. |
| Escape.EscapedHasNoMarkup | wikidown.go:19 | After escaping, no `<`, `>`, quote or NUL is left. Of the special characters, only `&` can remain. |
| Escape.EscapeIdentity | wikidown.go:19 | A text without special characters is not changed by escaping. |
| Escape.UnescapeEscape | wikidown.go:19 | Unescaping the escaped text gives back the original text, for any text without NUL. |
| Headings.Header | wikidown.go:274-318 | The output is the text with level-5 and level-4 headings and then level-3 and level-2 headings turned into HTML. The table of contents is the word scan of the text after the first two conversions. |
| Headings.TocScan | wikidown.go:286-311 | The word loop, with `counter` equal to the number of sections minus 1, builds exactly TocOf of the words. |
| Headings.JoinHeading | wikidown.go:291-300 | The word the loop tests is the word itself, or, for a word that opens a heading, the words up to the first one ending in `==`, joined by single spaces. |
| Headings.FileHeading | wikidown.go:302-310 | Filing one word changes the table exactly as TocStep does, and `counter` stays the number of sections minus 1. |
| Headings.ExtendHeading | wikidown.go:294-298 | The inner loop joins the words from `i` to the first later word ending in `==`. |
| Headings.FirstEnd | wikidown.go:296 | The index where the inner loop stops is the first word from the start index that ends in `==`. |
| Headings.TocSections | wikidown.go:303-310 | The table has one section per level-2 heading seen, and no section is empty. |
| Headings.TocStepSections | wikidown.go:303-310 | One word adds a section exactly when it is a level-2 heading, and it never leaves a section empty. |
| Headings.OrphanSubheadingsDropped | wikidown.go:303-306 | With no level-2 heading among the words, the table is empty. Level-3 headings before the first section are dropped. |
| Headings.TocStepLevel3 | wikidown.go:303-306 | A level-3 heading adds its title to the last section. With no section yet, the table is unchanged. |
| Headings.TocStepLevel2 | wikidown.go:307-309 | A level-2 heading appends a new section titled with its text. |
| Headings.NoLevel3Inside | wikidown.go:303-307 | A word `==x==` with text between the markers holds no `===`. So the level-3 test cannot claim a level-2 heading. |
| Headings.TrailingMarker | wikidown.go:303-307 | A word with only a trailing `==` matches neither heading pattern. |
| Headings.TwoWordHeading | wikidown.go:292-308 | `==a` followed by `b==`, with `==a` longer than 4 bytes, is rejoined as `==a b==` and gives the section `a b`. |
| Headings.SpacedHeadingNotInToc | wikidown.go:288-315 | `== x ==` gives no table entry, but it is still turned into an `<h2>` tag. |
| Headings.NestedToc | wikidown.go:303-310 | Level-2, level-3, level-2 headings give two sections, and the level-3 title sits in the first. |
| Headings.NoMarkerNoToc | wikidown.go:303-310 | Words without `==` leave the table empty. |
| Headings.TagHasNoMarker | wikidown.go:282-283 | A heading tag built from text without `=` holds no `==`. |
| Headings.MinorLevel5 | wikidown.go:282 | `=====x=====` becomes `<h5 id="x">x</h5>`, which holds no `==`. |
| Headings.MinorLevel4 | wikidown.go:283 | `====x====` becomes `<h4 id="x">x</h4>`, which holds no `==`. |
| Headings.MinorHeadingNotInToc | wikidown.go:282-311 | A text that is one level-5 or level-4 heading has an empty table of contents. |
| Headings.MinorStep5 | wikidown.go:282-283 | `a=====x=====b` becomes `a`, the `<h5>` HTML of `x`, and Minor of `b`: the pass works pair by pair. |
| Headings.MinorStep4 | wikidown.go:282-283 | `a====x====b` becomes `a`, the `<h4>` HTML of `x`, and Minor of `b`, when `b` does not start with `=`. |
| Headings.TagSkip | wikidown.go:283 | The HTML of a heading starts no match of a later heading pass. |
| Headings.MajorLevel3 | wikidown.go:314 | `===x===` becomes `<h3 id="x">x</h3>`. |
| Headings.MajorLevel2 | wikidown.go:315 | `==x==` becomes `<h2 id="x">x</h2>`. |
| Headings.MajorStep3 | wikidown.go:314-315 | `a===x===b` becomes `a`, the `<h3>` HTML of `x`, and Major of `b`: the pass works pair by pair. |
| Headings.MajorStep2 | wikidown.go:314-315 | `a==x==b` becomes `a`, the `<h2>` HTML of `x`, and Major of `b`, when `b` does not start with `=`. |
| Images.FileLinkBecomesImg | wikidown.go:60-61 | `[[File:x|thumb|c]]` (or `|thumbnail|`) becomes `<img src="/img/x" alt="c">`, and the text before it is kept. |
| Images.FileLinksSkips | wikidown.go:60-61 | Text without `[` passes through unchanged. |
| Images.Separator | wikidown.go:60 | A found separator lies inside the line. |
| Images.SeparatorAfter | wikidown.go:60 | The name runs to the first `|thumb|` or `|thumbnail|` on the line. |
| Images.FileAtLink | wikidown.go:60-61 | A file link at the start of the text matches, and the whole link is consumed. |
| Images.ImageLineSpec | wikidown.go:86-131 | An image line becomes a figure. It links to the file name with spaces turned into `_`. It keeps the text before `src` and from `alt` on. Its caption is the name up to the first `.` with `_` turned back into spaces. |
| Images.ImageNameIs | wikidown.go:88-91 | The file name is the `src` group with spaces turned into `_`. |
| Images.ThumbSource | wikidown.go:126 | Rewriting the `src` prefix gives the `220px-` thumbnail source. |
| Images.CaptionHasNoUnderscore | wikidown.go:130 | The caption holds no `_` and no `.`. |
| Images.ThumbSourceNamesOtherFile | wikidown.go:109-127 | The thumbnail of the JPEG `a.jpeg` is `220px-a.jpg`. When only the original exists, the source keeps the original name and gains the size attributes. |
| Images.Stem | wikidown.go:109 | The name up to its first `.` holds no `.`. |
| Images.Rebuilt | wikidown.go:109-125 | The rebuild only adds thumbnails and never changes the originals. Afterwards the line's thumbnail is on disk exactly when the figure shows it. |
| Blocks.BlockScan | wikidown.go:73-198 | The loop with its three flags and three counters leaves in the array exactly the lines of `Blocks`, carrying the disk from line to line as the rebuild changes it. |
| Blocks.ScanLine | wikidown.go:85-189 | One pass of the loop body gives line `i` its rewrite and line `i - 1` its closing tags, and leaves the disk as it is when line `i + 1` is read. It keeps each flag true exactly while a run of its kind is open, and each counter at zero exactly while its flag is false. |
| Blocks.StoreLine | wikidown.go:84-189 | One pass of the loop takes the array from its state after `i` lines to its state after `i + 1` lines, and moves the flags and counters on with it. |
| Blocks.ScanRun | wikidown.go:137-164 | A `%` (or `#`) line becomes a list item, with `<ul>` (or `<ol>`) in front when it opens its run. Any other line closes an open run on the line before. The flag stays true exactly while the run is open, and the counter is zero exactly when it is false. |
| Blocks.ScanDescription | wikidown.go:169-189 | A `;` line with a colon becomes a whole list. A `;` line without one becomes a term, with `<dl>` when it opens the run. A `:` line inside a run becomes a definition. Any other line closes an open run on the line before. |
| Blocks.BodyOfScan | wikidown.go:86-189 | The image, unordered, ordered and description steps, run one after another, leave exactly the body of the line, since a line starts with at most one marker. |
| Blocks.CloseRuns | wikidown.go:193-198 | After the loop, unordered and ordered runs still open are closed on the last line, and the array then holds exactly the lines of `Blocks`. |
| Blocks.Blocks | wikidown.go:84-198 | The scan keeps the number of lines. |
| Blocks.DiskAt | wikidown.go:86-129 | The disk as line `k` is read, after the rebuild has run for every earlier image line. The originals never change. |
| Blocks.ThumbnailPersists | wikidown.go:109-124 | A thumbnail written while line `j` was rebuilt is still on disk when every later line is read. |
| Blocks.ThumbnailSeenLater | wikidown.go:109-127 | A later image line whose name has the same stem as a wide original finds the thumbnail, so its figure shows `220px-` and its own size, however narrow its own original is. |
| Blocks.ClosersBefore | wikidown.go:144-188 | Line `i - 1` gets `</ul>`, `</ol>` and `</dl>` exactly when the run of that kind is open before line `i` and line `i` does not continue it. |
| Blocks.ClosersLast | wikidown.go:193-198 | The last line gets only `</ul>` and `</ol>` for runs still open. |
| Blocks.AtMostOneRun | wikidown.go:137-189 | At most one run is open at a time, and a description run is open only right after a `;` or `:` line. |
| Blocks.RunCount | wikidown.go:137-164 | After `n` lines, the unordered (or ordered) runs opened equal those closed, plus one for the run still open. |
| Blocks.RunsBalanced | wikidown.go:137-198 | Over the whole text, every `<ul>` (or `<ol>`) gets its closing tag. |
| Blocks.RunEnds | wikidown.go:137-164 | A run starting at line `k` ends at some later line, and every line in between is an item of it. |
| Blocks.DlCount | wikidown.go:169-189 | After `n` lines, the description runs opened equal those closed, plus one for the run still open. |
| Blocks.DlBalanced | wikidown.go:169-198 | Over the whole text, every description run is closed except one still open after the last line. |
| Blocks.OneItemList | wikidown.go:137-195 | A single `%x` line becomes `<ul><li>x</li></ul>`. |
| Blocks.OpenDescriptionAtEnd | wikidown.go:169-198 | A single `;x` line without a colon becomes `<dl><dt>x</dt>` and is never closed. |
| Inline.RulesLeaveNone | wikidown.go:204-205 | No `----` survives the rule pass. |
| Inline.QuoteBlocksSpec | wikidown.go:208-209 | A line `$ x` becomes `<blockquote>x</blockquote>`. Every other line is kept, and the number of lines stays the same. |
| Inline.EmphasisRuns | wikidown.go:212-221 | A run of 3, 2 or 1 stars around a star-free word becomes `<b><i>`, `<b>` or `<i>` with its closing tags. |
| Inline.Emphasis3 | wikidown.go:212-213 | `***x***` becomes `<b><i>x</i></b>`. |
| Inline.Emphasis2 | wikidown.go:216-217 | `**x**` becomes `<b>x</b>`. |
| Inline.Emphasis1 | wikidown.go:220-221 | `*x*` becomes `<i>x</i>`. |
| Inline.EmphasisStep | wikidown.go:211-221 | For every text: a star-free `a`, a run of 3, 2 or 1 stars around a star-free `x` on one line, and a `b` not starting with a star become `a`, the tags around `x`, and the rewrite of `b`. |
| Inline.EmphasisStep3 | wikidown.go:211-221 | `a***x***b` becomes `a<b><i>x</i></b>` followed by the rewrite of `b`. |
| Inline.EmphasisStep2 | wikidown.go:211-221 | `a**x**b` becomes `a<b>x</b>` followed by the rewrite of `b`. |
| Inline.EmphasisStep1 | wikidown.go:211-221 | `a*x*b` becomes `a<i>x</i>` followed by the rewrite of `b`. |
| Inline.EntryLinksMatch | wikidown.go:254-255 | `[[x]]` becomes a link to the entry `x`, and the text before it is kept. |
| Inline.OpenedLines | wikidown.go:261 | After the newline replacement, every line but the first starts with `<p>`. |
| Inline.ParagraphsLines | wikidown.go:261-269 | The paragraph passes keep the number of lines. The first line is never wrapped. Every later line is emptied if it was empty, and otherwise it gets `<p>`, which is dropped again in front of a heading. |
| Inline.DropHeadingParagraphSpec | wikidown.go:268-269 | A line is kept, or it loses exactly the first `<p>` that stands in front of a heading. |
| Inline.HeadingLineUnwrapped | wikidown.go:268-269 | A heading line does not keep the `<p>` put in front of it. |
| Inline.PlainLineWrapped | wikidown.go:261-269 | A line without tags keeps its `<p>`. |
| Inline.NoNewlineKept | wikidown.go:264-269 | The per-line rewrites add no line break. |
| Emoticons.NoTokenLeft | wikidown.go:321-370 | No token of the table occurs in the result. |
| Emoticons.Idempotent | wikidown.go:321-370 | Applying Emoticons twice gives the same text as applying it once. |
| Emoticons.PlainText | wikidown.go:321-370 | A text without `:`, `;`, `)`, `X`, `_` or `&` is not changed. |
| Emoticons.ApplyClears | wikidown.go:323-367 | After a table is applied, none of its tokens is left. |
| Emoticons.ApplyKeepsAbsent | wikidown.go:323-367 | Applying a table creates no token that was not there. |
| Emoticons.ApplyIdentity | wikidown.go:323-367 | A text holding none of the tokens is not changed. |
| Emoticons.TokenAlone | wikidown.go:323-367 | A token that holds no earlier token becomes its own image. |
| Emoticons.LaughAliases | wikidown.go:325-326 | `:laugh:` and `:DD` both become the laugh image. |
| Emoticons.GrinAlone | wikidown.go:336 | `:D` on its own becomes the big-grin image. |
| Emoticons.HaloFirst | wikidown.go:330 | `O:)` becomes the innocent image, not an `O` followed by a smile. |
| Emoticons.SatisfiedAlone | wikidown.go:332 | `/:D` becomes the satisfied image, not a `/` followed by a grin. |
| Emoticons.ShorterFirstWouldClobber | wikidown.go:326-335 | Had `:D` or `:)` come first, `:DD` and `O:)` would be split. That is why the longer tokens come first. |
| Emoticons.ReplacementFree | wikidown.go:322-367 | No replacement holds a token, and none can form one with the text around it. |
| Text.ReplaceAbsent | wikidown.go:70 | `strings.Replace` leaves a text without the pattern unchanged. |
| Text.ReplaceDeletes | wikidown.go:70 | Removing every carriage return leaves none. |
| Text.ReplaceLeavesNoNew | wikidown.go:204-205 | A replace-all creates no occurrence of a pattern that the replacement cannot form. |
| Text.ReplaceOneChar | wikidown.go:89 | Replacing one character by another is a per-character map. |
| Text.JoinLines | wikidown.go:201 | Joining the split lines with newlines gives back the text. |
| Text.LinesJoin | wikidown.go:73 | Splitting joined newline-free lines gives back the lines. |
| Text.LinesOfMapLines | wikidown.go:27-28 | A per-line rewrite keeps the number of lines and rewrites each line on its own. |
| Text.FieldsOfUnwords | wikidown.go:288 | Splitting words joined by single spaces gives back the words. |
| Text.FieldsInfix | wikidown.go:288 | A word of the text holds a pattern only if the text does. |
| Text.ByteLen | wikidown.go:292 | The byte length is at least the character count, and equal to it for ASCII text. |
| Text.NatToStringRoundTrip | wikidown.go:127 | The decimal digits of a size read back as that size. |
| Scan.LinePrefixPassLines | wikidown.go:27-28 | A `(?m)^X(.*)` rewrite changes exactly the lines starting with the marker and keeps the number of lines. |
| Scan.PairRewriteMatch | wikidown.go:212-221 | The leftmost pair on a line is rewritten with the text between the delimiters as its group. |
| Scan.PairRewriteAtStart | wikidown.go:212-221 | A pair at the start of the text is rewritten, and the scan resumes right after its closing delimiter. |
| Scan.PairRewriteWhole | wikidown.go:31-40 | A text that is exactly one delimited pair becomes the template applied to its group. |
| Scan.PairRewriteNoOpening | wikidown.go:212-221 | A text without the opening delimiter is not changed. |
| Scan.RunSkip | wikidown.go:211-221 | A run of the marker shorter than the opening, followed by anything else, starts no match. |
| Scan.RunSkipAfter | wikidown.go:211-221 | A marker-free text, a shorter run and a non-empty marker-free text start no match, and the rewrite goes on after them. |
| Scan.RunPairSkip | wikidown.go:211-221 | A pair of shorter runs around a marker-free text is left for a later pass. |
| Scan.LeadKept | wikidown.go:211-221 | A text that does not start with the marker still does not after the pass. |
| Scan.FindPairMatch | wikidown.go:303-308 | The match the heading test finds is the leftmost pair. |
| Scan.FindPairNoOpening | wikidown.go:303-307 | A word without the opening delimiter does not match. |
| Scan.CloseAtSpec | wikidown.go:31-40 | The non-greedy group stops at the first closing delimiter, holds no line break, and fails when no closing delimiter follows on the same line. So no pair crosses a line break. |

## Left out

- `markdown.go` is not part of this model. It does not compile and is not called by `wikidown.go`.
- Thumbnail file I/O (wikidown.go:93-129) is replaced by a `Files` value. It holds the size of each original image and the names of the thumbnails on disk. Nothing is decoded, resized or written as bytes. Writing a thumbnail adds its name to the value (`Images.Rebuilt`), and the block scan carries the value from line to line (`Blocks.DiskAt`). A thumbnail is present after a line's rebuild exactly when its original exists and either the thumbnail was already on disk, possibly written for an earlier line with the same stem, or the original is wider than 220 pixels.
- The e-mail, YouTube, URL and markdown-link passes (wikidown.go:223-252) are not modelled. `Pipeline.Parse` and `Pipeline.ParseAll` take them as one function parameter, `links`. Their character classes and `\b` would require a regular-expression engine.
- `fmt.Println` logging (wikidown.go:96, 101, 115) is left out.
- `Escape.HtmlEscape` models the standard library's `template.HTMLEscapeString` from its documented behaviour. It is not in the source.
- `Headings.OpensHeading` measures `len(word)` as the UTF-8 byte length of the characters. Invalid UTF-8 is not modelled.
- `Blocks.DlSingle`: the group `(.*)+` of wikidown.go:170 is taken to capture the whole rest of the line.
- `Headings.Header`, `Pipeline.ParseAll`: they require that every word opening a spaced heading is followed by a word ending in `==`. Without one, the loop at wikidown.go:296-297 indexes past the last word and the program panics.
- `Pipeline.Parse`, `Blocks.BlockScan`: they require that every image line holds `alt` and a file name with a `.`. Otherwise the slicing at wikidown.go:87, 90, 109 and 130 panics.
- `Images.Files`: every original is taken to decode as JPEG. Any other file makes the source panic at wikidown.go:105, because `jpeg.Decode` at wikidown.go:99 leaves the image nil.
- `Headings.MinorHeadingNotInToc`: stated for a text that is one level-5 or level-4 heading. It does not hold for every text: a minor heading inside a spaced level-2 heading ends up in that section's title, as the behaviours above show.
- `Emoticons.HaloFirst`: for the innocent image, only the `O:)` alias is proved to give the image on its own. `:innocent:` is covered only by `Emoticons.NoTokenLeft` and `Emoticons.Idempotent`.
