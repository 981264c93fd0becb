/**
 * Images in Parse: the `[[File:name|thumb|caption]]` pass that turns wiki
 * file links into `<img>` tags (wikidown.go:58-61), and the rebuild of a line
 * holding such a tag into a captioned figure (wikidown.go:86-131). The file
 * system is a `Files` value: the originals and the thumbnails on disk, to
 * which the rebuild adds the thumbnails it writes.
 */
module Images {
  import opened Wrappers
  import opened Text
  import opened Scan

  const FileOpen := "[[File:"
  const SrcOpen := "src=\"/img/"
  const ThumbOpen := "src=\"/img/220px-"

  /** Where the `|thumb|` or `|thumbnail|` separator starts, and its length. */
  datatype Sep = Sep(pos: nat, width: nat)

  /**
   * The first position, before the end of the line, where `|thumbnail|` or
   * `|thumb|` starts: what `(.*?)\|(thumb(?:nail)?)\|` settles on first, the
   * longer separator being tried first at each position.
   */
  function Separator(r: string): (sp: Option<Sep>)
    ensures sp.Some? ==> sp.value.pos + sp.value.width <= |r|
    decreases |r|
  {
    if |r| == 0 || r[0] == '\n' then None
    else if StartsWith(r, "|thumbnail|") then Some(Sep(0, 11))
    else if StartsWith(r, "|thumb|") then Some(Sep(0, 7))
    else
      match Separator(r[1..])
      case Some(sp) => Some(Sep(sp.pos + 1, sp.width))
      case None => None
  }

  /** The template `<img src="/img/$1" alt="$3">`. */
  function ImgTag(name: string, caption: string): string
  {
    "<img " + SrcOpen + name + "\" alt=\"" + caption + "\">"
  }

  /** A match: the replacement text and the length of text it replaces. */
  datatype Hit = Hit(out: string, len: nat)

  /**
   * `\[\[File:(.*?)\|(thumb(?:nail)?)\|(.*?)\]\]` at the start of `s`. Only the
   * first separator on the line can lead to a match: a later one would leave
   * the caption less of the same line to find `]]` in.
   */
  function FileAt(s: string): (h: Option<Hit>)
    ensures h.Some? ==> 0 < h.value.len <= |s|
  {
    if !StartsWith(s, FileOpen) then None
    else
      match LinkRest(s[|FileOpen|..])
      case None => None
      case Some(h) => Some(Hit(h.out, |FileOpen| + h.len))
  }

  /** The rest of the pattern, after `[[File:`. */
  function LinkRest(rest: string): (h: Option<Hit>)
    ensures h.Some? ==> h.value.len <= |rest|
  {
    match Separator(rest)
    case None => None
    case Some(sp) =>
      var after := rest[sp.pos + sp.width..];
      match CloseAt(after, "]]")
      case None => None
      case Some(e) => Some(Hit(ImgTag(rest[..sp.pos], after[..e]), sp.pos + sp.width + e + 2))
  }

  /** ReplaceAllString of the file-link pattern (wikidown.go:60-61). */
  function FileLinks(s: string): string
    decreases |s|
  {
    if |s| == 0 then ""
    else
      match FileAt(s)
      case Some(h) => h.out + FileLinks(s[h.len..])
      case None => [s[0]] + FileLinks(s[1..])
  }

  // ---------------------------------------------------------------------------
  // The image line

  /** The size of an image. */
  datatype Dims = Dims(width: nat, height: nat)

  /**
   * What the rebuild finds on disk: the size of every original image under
   * `img/`, by name, and the names of the thumbnails already there. Every
   * original is taken to be JPEG data that decodes (wikidown.go:99).
   */
  datatype Files = Files(originals: map<string, Dims>, thumbnails: set<string>)

  /** `src="\/img\/(.*?)"` matches the line. */
  predicate IsImage(v: string)
  {
    FindPair(v, SrcOpen, "\"").Some?
  }

  /**
   * The file name: the matched `src` attribute with spaces turned into `_`,
   * reduced to its group by a second substitution (wikidown.go:88-91).
   */
  function ImageName(v: string): string
    requires IsImage(v)
  {
    var second := Replace(SrcOpen + FindPair(v, SrcOpen, "\"").value + "\"", " ", "_");
    PairRewrite(second, SrcOpen, "\"", x => x)
  }

  /**
   * The line can be rebuilt without a run-time panic: it holds `alt`, and
   * the file name holds a `.` (wikidown.go:90, 109, 130).
   */
  predicate ImageOk(v: string)
  {
    IsImage(v) ==> Contains(v, "alt") && '.' in ImageName(v)
  }

  /** The name up to its first `.`. */
  function Stem(name: string): (r: string)
    requires '.' in name
    ensures '.' !in r
  {
    CharContained(name, '.');
    var d := IndexOf(name, ".").value;
    NoCharBefore(name, '.', d);
    name[..d]
  }

  /** The thumbnail file the rebuild makes or looks for (wikidown.go:109, 113, 124). */
  function ThumbFile(name: string): string
    requires '.' in name
  {
    "220px-" + Stem(name) + ".jpg"
  }

  /**
   * After the rebuild, a thumbnail is there: the original exists, and the
   * thumbnail was there already or was made because the original is wider
   * than 220 pixels (wikidown.go:93, 109-125).
   */
  predicate HasThumbnail(name: string, fs: Files)
    requires '.' in name
  {
    name in fs.originals && (ThumbFile(name) in fs.thumbnails || fs.originals[name].width > 220)
  }

  /**
   * The disk once the rebuild has run for the image line `v`: the thumbnail
   * of an original wider than 220 pixels is written when it is missing
   * (wikidown.go:109-123). Nothing is removed, and the thumbnail is then on
   * disk exactly when the figure shows it.
   */
  function Rebuilt(v: string, fs: Files): (r: Files)
    requires IsImage(v) && ImageOk(v)
    ensures r.originals == fs.originals && fs.thumbnails <= r.thumbnails
    ensures HasThumbnail(ImageName(v), fs) <==>
            ImageName(v) in fs.originals && ThumbFile(ImageName(v)) in r.thumbnails
  {
    var name := ImageName(v);
    if name in fs.originals && fs.originals[name].width > 220 then
      Files(fs.originals, fs.thumbnails + {ThumbFile(name)})
    else fs
  }

  /** The size attributes appended to the thumbnail's `src` (wikidown.go:127). */
  function SizeAttrs(d: Dims): string
  {
    " data-file-width=\"" + NatToString(d.width) + "\" data-file-height=\"" + NatToString(d.height) + "\" "
  }

  /** The line up to its first `src` (wikidown.go:87). */
  function ImagePrefix(v: string): string
    requires IsImage(v)
  {
    SrcPresent(v);
    v[..IndexOf(v, "src").value]
  }

  /** The line from its first `alt` on (wikidown.go:90). */
  function AltSuffix(v: string): string
    requires Contains(v, "alt")
  {
    v[IndexOf(v, "alt").value..]
  }

  /** The wrapper of wikidown.go:131. */
  function Figure(name: string, first: string, src: string, third: string, caption: string): string
  {
    "<div class=\"thumb right\"><a href=\"/img/" + name + "\">" + first + " " + src + " " + third +
    "</a><figcaption>" + caption + "</figcaption></div>"
  }

  /** The rebuilt image line (wikidown.go:86-131). */
  function ImageLine(v: string, fs: Files): string
    requires IsImage(v) && ImageOk(v)
  {
    var second := Replace(SrcOpen + FindPair(v, SrcOpen, "\"").value + "\"", " ", "_");
    var name := ImageName(v);
    var src :=
      if HasThumbnail(name, fs) then Replace(second, SrcOpen, ThumbOpen) + SizeAttrs(fs.originals[name])
      else second;
    Figure(name, ImagePrefix(v), src, AltSuffix(v), Replace(Stem(name), "_", " "))
  }

  // ---------------------------------------------------------------------------
  // Properties

  /** A line that matches holds `src`. */
  lemma {:induction false} SrcPresent(v: string)
    requires IsImage(v)
    ensures Contains(v, "src")
  {
    var j := FindPairWitness(v, SrcOpen, "\"");
    assert v[j..][..|SrcOpen|] == SrcOpen;
    assert SrcOpen[..3] == "src";
    assert v[j..j + 3] == v[j..][..|SrcOpen|][..3];
    assert At(v, j, "src");
  }

  /**
   * The `src` attribute the figure shows: the thumbnail, followed by the size
   * of the original, when there is a thumbnail, and the image itself otherwise.
   */
  function Source(name: string, fs: Files): string
    requires '.' in name
  {
    if HasThumbnail(name, fs) then ThumbOpen + name + "\"" + SizeAttrs(fs.originals[name])
    else SrcOpen + name + "\""
  }

  /**
   * The rebuilt line, stated without the substitutions that compute it: the
   * file name is the `src` group with spaces turned into `_`, the figure
   * shows the thumbnail only when there is one, and the caption is the name
   * up to its first `.` with `_` turned back into spaces.
   */
  lemma {:induction false} ImageLineSpec(v: string, fs: Files)
    requires IsImage(v) && ImageOk(v)
    ensures ImageName(v) == MapChar(FindPair(v, SrcOpen, "\"").value, ' ', '_')
    ensures ImageLine(v, fs) ==
      Figure(ImageName(v), ImagePrefix(v), Source(ImageName(v), fs), AltSuffix(v),
             MapChar(Stem(ImageName(v)), '_', ' '))
  {
    var g := FindPair(v, SrcOpen, "\"").value;
    var name := MapChar(g, ' ', '_');
    SecondIs(v);
    ImageNameIs(v);
    if HasThumbnail(name, fs) {
      ThumbSource(name);
    }
    ReplaceOneChar(Stem(name), '_', ' ');
  }

  /** The matched attribute with spaces turned into `_`. */
  lemma {:induction false} SecondIs(v: string)
    requires IsImage(v)
    ensures var g := FindPair(v, SrcOpen, "\"").value;
      Replace(SrcOpen + g + "\"", " ", "_") == SrcOpen + MapChar(g, ' ', '_') + "\""
    ensures '"' !in MapChar(FindPair(v, SrcOpen, "\"").value, ' ', '_')
    ensures '\n' !in MapChar(FindPair(v, SrcOpen, "\"").value, ' ', '_')
  {
    var g := FindPair(v, SrcOpen, "\"").value;
    FindPairGroup(v, SrcOpen, "\"");
    ReplaceOneChar(SrcOpen + g + "\"", ' ', '_');
    MapCharConcat(SrcOpen + g, "\"", ' ', '_');
    MapCharConcat(SrcOpen, g, ' ', '_');
    assert ' ' !in SrcOpen;
    MapCharAbsent(SrcOpen, ' ', '_');
    MapCharAbsent("\"", ' ', '_');
    MapCharKeepsAbsent(g, ' ', '_', '"');
    MapCharKeepsAbsent(g, ' ', '_', '\n');
  }

  lemma {:induction false} ImageNameIs(v: string)
    requires IsImage(v)
    ensures ImageName(v) == MapChar(FindPair(v, SrcOpen, "\"").value, ' ', '_')
  {
    var name := MapChar(FindPair(v, SrcOpen, "\"").value, ' ', '_');
    SecondIs(v);
    PairRewriteAtStart(name, "", SrcOpen, "\"", x => x);
    assert SrcOpen + name + "\"" + "" == SrcOpen + name + "\"";
  }

  /** Pointing `src` at the thumbnail changes only the attribute's prefix. */
  lemma {:induction false} ThumbSource(name: string)
    requires '"' !in name
    ensures Replace(SrcOpen + name + "\"", SrcOpen, ThumbOpen) == ThumbOpen + name + "\""
  {
    var s := SrcOpen + name + "\"";
    assert s[..|SrcOpen|] == SrcOpen;
    assert s[|SrcOpen|..] == name + "\"";
    assert !Contains(name + "\"", SrcOpen) by {
      var t := name + "\"";
      forall k | 0 <= k <= |t| - |SrcOpen| ensures !At(t, k, SrcOpen) {
        assert SrcOpen[4] == '"';
        assert t[k + 4] == name[k + 4];
        assert name[k + 4] in name;
        assert t[k..k + |SrcOpen|][4] != SrcOpen[4];
      }
    }
    ReplaceAbsent(name + "\"", SrcOpen, ThumbOpen);
  }

  /** The caption never holds `_`: every `_` of the name becomes a space. */
  lemma {:induction false} CaptionHasNoUnderscore(name: string)
    requires '.' in name
    ensures '_' !in MapChar(Stem(name), '_', ' ') && '.' !in MapChar(Stem(name), '_', ' ')
  {
    var c := MapChar(Stem(name), '_', ' ');
    forall i | 0 <= i < |c| ensures c[i] != '_' && c[i] != '.' {
      assert Stem(name)[i] in Stem(name);
    }
  }

  /**
   * The `src` a thumbnail gets keeps the original's extension, but the
   * thumbnail is always made as a `.jpg`: for a JPEG named `a.jpeg` the
   * figure points at `220px-a.jpeg` while the file made is `220px-a.jpg`.
   */
  lemma {:induction false} ThumbSourceNamesOtherFile()
    ensures ThumbFile("a.jpeg") == "220px-a.jpg"
    ensures Source("a.jpeg", Files(map["a.jpeg" := Dims(300, 200)], {})) ==
            ThumbOpen + "a.jpeg" + "\"" + SizeAttrs(Dims(300, 200))
  {
    assert IndexOf("a.jpeg", ".") == Some(1) by {
      assert At("a.jpeg", 1, ".");
      assert "a.jpeg"[0..1][0] == 'a';
      assert !At("a.jpeg", 0, ".");
    }
  }

  /** A text free of `[` holds no file link. */
  lemma {:induction false} FileLinksSkips(a: string, rest: string)
    requires '[' !in a
    ensures FileLinks(a + rest) == a + FileLinks(rest)
    decreases |a|
  {
    if |a| > 0 {
      var s := a + rest;
      assert s[0] == a[0];
      assert !StartsWith(s, FileOpen) by {
        assert FileOpen[0] == '[';
        if |FileOpen| <= |s| {
          assert s[..|FileOpen|][0] == s[0];
        }
      }
      assert s[1..] == a[1..] + rest;
      FileLinksSkips(a[1..], rest);
    } else {
      assert a + rest == rest;
    }
  }

  /** The separators `|thumb|` and `|thumbnail|`. */
  predicate IsSeparator(w: string)
  {
    w == "|thumb|" || w == "|thumbnail|"
  }

  /** The first separator after a name free of `|` is the one that follows it. */
  lemma {:induction false} SeparatorAfter(x: string, w: string, rest: string)
    requires '|' !in x && '\n' !in x && IsSeparator(w)
    ensures Separator(x + w + rest) == Some(Sep(|x|, |w|))
    decreases |x|
  {
    var r := x + w + rest;
    if |x| == 0 {
      assert r == w + rest;
      assert r[0] == '|';
      if w == "|thumbnail|" {
        assert r[..11] == w;
      } else {
        assert r[..7] == w;
        assert !StartsWith(r, "|thumbnail|") by {
          if |r| >= 11 {
            assert r[6] == '|';
            assert r[..11][6] == r[6];
          }
        }
      }
    } else {
      assert r[0] == x[0];
      assert !StartsWith(r, "|thumbnail|") && !StartsWith(r, "|thumb|") by {
        assert r[..1][0] == r[0];
        if |r| >= 7 {
          assert r[..7][0] == r[0];
        }
        if |r| >= 11 {
          assert r[..11][0] == r[0];
        }
      }
      assert r[1..] == x[1..] + w + rest;
      SeparatorAfter(x[1..], w, rest);
    }
  }

  /** The file-link pattern on a link: the name and the caption become the tag's attributes. */
  lemma {:induction false} FileAtLink(x: string, w: string, c: string, b: string)
    requires '|' !in x && '\n' !in x && IsSeparator(w) && ']' !in c && '\n' !in c
    ensures FileAt(FileOpen + x + w + c + "]]" + b) ==
            Some(Hit(ImgTag(x, c), |FileOpen| + |x| + |w| + |c| + 2))
  {
    var rest := x + w + c + "]]" + b;
    LinkRestLink(x, w, c, b);
    FileAtRest(rest, Hit(ImgTag(x, c), |x| + |w| + |c| + 2));
    Regroup5(FileOpen, x, w, c, "]]", b);
  }

  /** After `[[File:`, the pattern is the rest of the link. */
  lemma {:induction false} FileAtRest(rest: string, h: Hit)
    requires LinkRest(rest) == Some(h)
    ensures FileAt(FileOpen + rest) == Some(Hit(h.out, |FileOpen| + h.len))
  {
    assert (FileOpen + rest)[..|FileOpen|] == FileOpen;
    assert (FileOpen + rest)[|FileOpen|..] == rest;
  }

  lemma {:induction false} LinkRestLink(x: string, w: string, c: string, b: string)
    requires '|' !in x && '\n' !in x && IsSeparator(w) && ']' !in c && '\n' !in c
    ensures LinkRest(x + w + c + "]]" + b) == Some(Hit(ImgTag(x, c), |x| + |w| + |c| + 2))
  {
    var tail := c + "]]" + b;
    var rest := x + w + tail;
    Regroup3(x + w, c, "]]", b);
    SeparatorAfter(x, w, tail);
    CloseAtAfter(c, "]]", b);
    SplitAfter(x, w, tail);
    SplitAfter(c, "]]", b);
  }

  /** The pieces of `x + w + t`, cut at the ends of `x` and `w`. */
  lemma {:induction false} SplitAfter(x: string, w: string, t: string)
    ensures (x + w + t)[..|x|] == x && (x + w + t)[|x| + |w|..] == t
  {
  }

  /**
   * A wiki file link `[[File:x|thumb|c]]`, or with `|thumbnail|`, becomes
   * `<img src="/img/x" alt="c">`; the scan resumes after the link.
   */
  lemma {:induction false} FileLinkBecomesImg(a: string, x: string, w: string, c: string, b: string)
    requires '[' !in a && '|' !in x && '\n' !in x && IsSeparator(w) && ']' !in c && '\n' !in c
    ensures FileLinks(a + FileOpen + x + w + c + "]]" + b) == a + ImgTag(x, c) + FileLinks(b)
  {
    var m := FileOpen + x + w + c + "]]" + b;
    assert a + FileOpen + x + w + c + "]]" + b == a + m;
    FileLinksSkips(a, m);
    FileAtLink(x, w, c, b);
    assert m[|FileOpen| + |x| + |w| + |c| + 2..] == b;
  }
}
