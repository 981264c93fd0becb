/**
 * Header (wikidown.go:274-318): level-5 and level-4 headings become HTML at
 * once; the text is then cut into white-space separated words, which are
 * scanned for level-3 and level-2 headings to build the table of contents;
 * finally level-3 and level-2 headings become HTML too.
 *
 * The table of contents is a sequence of sections. A section is a level-2
 * title followed by the titles of the level-3 headings under it.
 */
module Headings {
  import opened Wrappers
  import opened Text
  import opened Scan

  const H5 := "====="
  const H4 := "===="
  const H3 := "==="
  const H2 := "=="

  /** The template `<hN id="$1">$1</hN>`. */
  function HeadingTag(level: char): string -> string
  {
    x => "<h" + [level] + " id=\"" + x + "\">" + x + "</h" + [level] + ">"
  }

  /** `=====(.*?)=====` and then `====(.*?)====` become HTML (wikidown.go:282-283). */
  function Minor(s: string): string
  {
    PairRewrite(PairRewrite(s, H5, H5, HeadingTag('5')), H4, H4, HeadingTag('4'))
  }

  /** `===(.*?)===` and then `==(.*?)==` become HTML (wikidown.go:314-315). */
  function Major(s: string): string
  {
    PairRewrite(PairRewrite(s, H3, H3, HeadingTag('3')), H2, H2, HeadingTag('2'))
  }

  type Toc = seq<seq<string>>

  // ---------------------------------------------------------------------------
  // Words and headings written over several words

  /**
   * The word opens a heading that holds spaces: it is longer than 4 bytes,
   * starts with `==` and does not end with `==` (wikidown.go:292-294). The
   * source compares bytes; `=` is a single byte that no longer UTF-8
   * sequence contains, so comparing characters gives the same answer.
   */
  predicate OpensHeading(w: string)
  {
    ByteLen(w) > 4 && StartsWith(w, H2) && !EndsWith(w, H2)
  }

  /**
   * Every word that opens a heading is followed by a word ending in `==`.
   * Without one, the inner loop of wikidown.go:296-297 indexes past the last
   * word and the program panics.
   */
  predicate HeadingsClosed(words: seq<string>)
  {
    forall i {:trigger OpensHeading(words[i])} :: 0 <= i < |words| && OpensHeading(words[i]) ==>
      exists j :: i < j < |words| && EndsWith(words[j], H2)
  }

  /** The first word from index `from` on that ends in `==`. */
  function FirstEnd(words: seq<string>, from: nat): (j: nat)
    requires exists j :: from <= j < |words| && EndsWith(words[j], H2)
    ensures from <= j < |words| && EndsWith(words[j], H2)
    ensures forall k :: from <= k < j ==> !EndsWith(words[k], H2)
    decreases |words| - from
  {
    if EndsWith(words[from], H2) then from
    else
      assert exists j :: from + 1 <= j < |words| && EndsWith(words[j], H2) by {
        var j :| from <= j < |words| && EndsWith(words[j], H2);
        assert j != from;
      }
      FirstEnd(words, from + 1)
  }

  /**
   * The word the scan looks at for index `i`: word `i` itself, or, when it
   * opens a heading, word `i` and the following words up to the first one
   * ending in `==`, joined by single spaces.
   */
  function Joined(words: seq<string>, i: nat): string
    requires i < |words| && HeadingsClosed(words)
  {
    if OpensHeading(words[i]) then Unwords(words[i..FirstEnd(words, i + 1) + 1]) else words[i]
  }

  // ---------------------------------------------------------------------------
  // The table of contents

  /**
   * What one word does to the table (wikidown.go:303-310): a `===x===` match
   * adds `x` to the last section, if there is one; otherwise a `==x==` match
   * opens a new section titled `x`.
   */
  function TocStep(toc: Toc, w: string): Toc
  {
    match FindPair(w, H3, H3)
    case Some(x) => if |toc| > 0 then toc[..|toc| - 1] + [toc[|toc| - 1] + [x]] else toc
    case None =>
      match FindPair(w, H2, H2)
      case Some(x) => toc + [[x]]
      case None => toc
  }

  /** The table after the first `n` words. */
  function TocOf(words: seq<string>, n: nat): Toc
    requires n <= |words| && HeadingsClosed(words)
  {
    if n == 0 then [] else TocStep(TocOf(words, n - 1), Joined(words, n - 1))
  }

  /** Joining a further word. */
  lemma {:induction false} UnwordsSnoc(ws: seq<string>, w: string)
    requires |ws| > 0
    ensures Unwords(ws + [w]) == Unwords(ws) + " " + w
    decreases |ws|
  {
    var vs := ws + [w];
    assert vs[1..] == ws[1..] + [w];
    if |ws| == 1 {
      assert Unwords(vs[1..]) == w;
    } else {
      UnwordsSnoc(ws[1..], w);
      calc {
        Unwords(vs);
        ws[0] + " " + Unwords(ws[1..] + [w]);
        ws[0] + " " + (Unwords(ws[1..]) + " " + w);
        (ws[0] + " " + Unwords(ws[1..])) + " " + w;
      }
    }
  }

  /** A space followed by a non-empty word ends in `==` exactly when the word does. */
  lemma {:induction false} EndsWithWord(x: string, w: string)
    ensures EndsWith(x + " " + w, H2) <==> EndsWith(w, H2)
  {
    var s := x + " " + w;
    if |w| >= 2 {
      assert s[|s| - 2..] == w[|w| - 2..];
    } else if |s| >= 2 {
      assert s[|s| - 2..][2 - 1 - |w|] == ' ';
    }
  }

  /**
   * The inner loop of wikidown.go:296-298: starting from word `i`, the
   * following words are appended, each after a space, until the word ends
   * in `==`.
   */
  method ExtendHeading(words: seq<string>, i: nat) returns (word: string)
    requires i < |words| && !EndsWith(words[i], H2)
    requires exists j :: i < j < |words| && EndsWith(words[j], H2)
    ensures word == Unwords(words[i..FirstEnd(words, i + 1) + 1])
  {
    word := words[i];
    var k := i;
    ghost var j := FirstEnd(words, i + 1);
    while !EndsWith(word, H2)
      invariant i <= k <= j
      invariant word == Unwords(words[i..k + 1])
      invariant k > i ==> (EndsWith(word, H2) <==> EndsWith(words[k], H2))
      invariant k < j || EndsWith(word, H2)
      decreases j - k
    {
      ExtendStep(words, i, k, word);
      word := word + " " + words[k + 1];
      k := k + 1;
    }
  }

  /** Appending the next word keeps the joined prefix, and the result ends in `==` when that word does. */
  lemma {:induction false} ExtendStep(words: seq<string>, i: nat, k: nat, word: string)
    requires i <= k && k + 1 < |words| && word == Unwords(words[i..k + 1])
    ensures word + " " + words[k + 1] == Unwords(words[i..k + 2])
    ensures EndsWith(word + " " + words[k + 1], H2) <==> EndsWith(words[k + 1], H2)
  {
    var prefix := words[i..k + 1];
    assert words[i..k + 2] == prefix + [words[k + 1]];
    UnwordsSnoc(prefix, words[k + 1]);
    EndsWithWord(word, words[k + 1]);
  }

  /**
   * The word the scan files for index `i` (wikidown.go:292-299): word `i`,
   * extended by ExtendHeading when it opens a heading that holds spaces.
   */
  method JoinHeading(words: seq<string>, i: nat) returns (word: string)
    requires i < |words| && HeadingsClosed(words)
    ensures word == Joined(words, i)
  {
    word := words[i];
    if ByteLen(word) > 4 {
      if StartsWith(word, H2) && !EndsWith(word, H2) {
        assert OpensHeading(words[i]);
        word := ExtendHeading(words, i);
        JoinedCases(words, i);
        return;
      }
    }
    assert !OpensHeading(words[i]);
    JoinedCases(words, i);
  }

  /** Joined in its two cases. */
  lemma {:induction false} JoinedCases(words: seq<string>, i: nat)
    requires i < |words| && HeadingsClosed(words)
    ensures !OpensHeading(words[i]) ==> Joined(words, i) == words[i]
    ensures OpensHeading(words[i]) ==> Joined(words, i) == Unwords(words[i..FirstEnd(words, i + 1) + 1])
  {
  }

  /**
   * The loop of wikidown.go:291-311. For each word it first rebuilds a
   * heading that holds spaces (the inner loop), then files it in the table.
   * `counter` is the index of the last section, -1 while there is none.
   */
  method TocScan(words: seq<string>) returns (toc: Toc)
    requires HeadingsClosed(words)
    ensures toc == TocOf(words, |words|)
  {
    toc := [];
    var counter := -1;
    var i := 0;
    while i < |words|
      invariant 0 <= i <= |words|
      invariant toc == TocOf(words, i)
      invariant counter == |toc| - 1
    {
      var word := JoinHeading(words, i);
      toc, counter := FileHeading(toc, counter, word);
      TocOfNext(words, i);
      i := i + 1;
    }
  }

  /** The table after one more word. */
  lemma {:induction false} TocOfNext(words: seq<string>, i: nat)
    requires i < |words| && HeadingsClosed(words)
    ensures TocOf(words, i + 1) == TocStep(TocOf(words, i), Joined(words, i))
  {
  }

  /**
   * The body of the loop of wikidown.go:300-309 once the word is rebuilt: a
   * `===x===` word adds `x` to the last section, if there is one; otherwise
   * a `==x==` word opens a new section.
   */
  method FileHeading(toc: Toc, counter: int, word: string) returns (toc': Toc, counter': int)
    requires counter == |toc| - 1
    ensures toc' == TocStep(toc, word) && counter' == |toc'| - 1
  {
    toc', counter' := toc, counter;
    var h3 := FindPair(word, H3, H3);
    if h3.Some? {
      if counter > -1 {
        toc' := toc[counter := toc[counter] + [h3.value]];
      }
    } else {
      var h2 := FindPair(word, H2, H2);
      if h2.Some? {
        toc' := toc + [[h2.value]];
        counter' := counter + 1;
      }
    }
  }

  /**
   * Header (wikidown.go:274-318): the text with every heading turned into
   * HTML, and the table of contents built from the words of the text once
   * level-5 and level-4 headings are gone.
   */
  method Header(s: string) returns (out: string, toc: Toc)
    requires HeadingsClosed(Fields(Minor(s)))
    ensures out == Major(Minor(s))
    ensures toc == TocOf(Fields(Minor(s)), |Fields(Minor(s))|)
  {
    out := Minor(s);
    var words := Fields(out);
    toc := TocScan(words);
    out := Major(out);
  }

  // ---------------------------------------------------------------------------
  // Properties

  /** A level-2 heading word: no `===x===` match, but a `==x==` match. */
  predicate Level2(w: string)
  {
    FindPair(w, H3, H3).None? && FindPair(w, H2, H2).Some?
  }

  /** The number of level-2 heading words among the first `n`. */
  function Level2Count(words: seq<string>, n: nat): nat
    requires n <= |words| && HeadingsClosed(words)
  {
    if n == 0 then 0 else Level2Count(words, n - 1) + (if Level2(Joined(words, n - 1)) then 1 else 0)
  }

  /**
   * The table has one section per level-2 heading seen so far (so `counter`,
   * which is kept at the number of sections minus one, is the number of
   * level-2 headings minus one), and every section holds its title.
   */
  lemma {:induction false} TocSections(words: seq<string>, n: nat)
    requires n <= |words| && HeadingsClosed(words)
    ensures |TocOf(words, n)| == Level2Count(words, n)
    ensures Titled(TocOf(words, n))
  {
    if n > 0 {
      TocSections(words, n - 1);
      TocOfNext(words, n - 1);
      TocStepSections(TocOf(words, n - 1), Joined(words, n - 1));
    }
  }

  /** Every section holds at least its title. */
  predicate Titled(toc: Toc)
  {
    forall k :: 0 <= k < |toc| ==> |toc[k]| >= 1
  }

  /** One word adds a section exactly when it is a level-2 heading, and no section is left empty. */
  lemma {:induction false} TocStepSections(toc: Toc, w: string)
    requires Titled(toc)
    ensures |TocStep(toc, w)| == |toc| + (if Level2(w) then 1 else 0)
    ensures Titled(TocStep(toc, w))
  {
  }

  /** Level-3 headings met before any level-2 heading leave no trace in the table. */
  lemma {:induction false} OrphanSubheadingsDropped(words: seq<string>, n: nat)
    requires n <= |words| && HeadingsClosed(words)
    requires forall m :: 0 <= m < n ==> !Level2(Joined(words, m))
    ensures TocOf(words, n) == []
  {
    CountNoLevel2(words, n);
    TocSections(words, n);
  }

  lemma {:induction false} CountNoLevel2(words: seq<string>, n: nat)
    requires n <= |words| && HeadingsClosed(words)
    requires forall m :: 0 <= m < n ==> !Level2(Joined(words, m))
    ensures Level2Count(words, n) == 0
  {
    if n > 0 {
      CountNoLevel2(words, n - 1);
    }
  }

  /**
   * `===x===` is tested first: it adds `x` under the last section, and is
   * dropped while there is no section yet.
   */
  lemma {:induction false} TocStepLevel3(toc: Toc, x: string)
    requires '=' !in x && '\n' !in x
    ensures TocStep(toc, H3 + x + H3) ==
      if |toc| > 0 then toc[..|toc| - 1] + [toc[|toc| - 1] + [x]] else toc
  {
    FindPairMatch("", x, "", H3, H3);
    assert "" + H3 + x + H3 + "" == H3 + x + H3;
  }

  /** `==x==` opens a new section titled `x`. */
  lemma {:induction false} TocStepLevel2(toc: Toc, x: string)
    requires |x| > 0 && '=' !in x && '\n' !in x
    ensures TocStep(toc, H2 + x + H2) == toc + [[x]]
  {
    var w := H2 + x + H2;
    NoLevel3Inside(x);
    FindPairNoOpening(w, H3, H3);
    FindPairMatch("", x, "", H2, H2);
    assert "" + H2 + x + H2 + "" == w;
  }

  /** `==x==` holds no `===` when `x` holds no `=`. */
  lemma {:induction false} NoLevel3Inside(x: string)
    requires |x| > 0 && '=' !in x
    ensures !Contains(H2 + x + H2, H3)
  {
    RunAbsent('=', x, 2, 3);
    assert Repeat('=', 2) == H2 && Repeat('=', 3) == H3;
  }

  /**
   * A word with a single `==`, at its end, is no heading: the second word
   * of a heading that holds spaces adds nothing on its own.
   */
  lemma {:induction false} TrailingMarker(a: string)
    requires '=' !in a
    ensures FindPair(a + H2, H2, H2) == None && FindPair(a + H2, H3, H3) == None
    decreases |a|
  {
    var w := a + H2;
    if |a| == 0 {
      assert w == "==";
      assert PairAt(w, H2, H2) == None by {
        assert w[|H2|..] == "";
      }
      assert w[1..] == "=";
      assert FindPair("=", H2, H2) == None by {
        assert !StartsWith("=", H2);
        assert "="[1..] == "";
      }
      assert !StartsWith(w, H3);
      assert FindPair("=", H3, H3) == None by {
        assert !StartsWith("=", H3);
        assert "="[1..] == "";
      }
    } else {
      assert w[0] == a[0] != '=';
      assert !StartsWith(w, H2) && !StartsWith(w, H3) by {
        assert w[..1][0] == w[0];
        if |w| >= 3 {
          assert w[..3][0] == w[0];
        }
      }
      assert w[1..] == a[1..] + H2;
      TrailingMarker(a[1..]);
    }
  }

  /**
   * A heading that holds spaces is rebuilt from its words and files its
   * whole title: the words `==a` and `b==` give one section titled `a b`,
   * and the word `b==` adds nothing on its own.
   */
  lemma {:induction false} TwoWordHeading(a: string, b: string)
    requires |a| >= 3 && |b| > 0 && '=' !in a && '=' !in b && '\n' !in a && '\n' !in b
    ensures HeadingsClosed([H2 + a, b + H2])
    ensures Joined([H2 + a, b + H2], 0) == H2 + (a + " " + b) + H2
    ensures TocOf([H2 + a, b + H2], 2) == [[a + " " + b]]
  {
    var words := [H2 + a, b + H2];
    assert OpensHeading(words[0]) by {
      assert words[0][..2] == H2;
      assert words[0][|words[0]| - 1] == a[|a| - 1];
    }
    assert EndsWith(words[1], H2) by {
      assert words[1][|words[1]| - 2..] == H2;
    }
    assert HeadingsClosed(words);
    assert FirstEnd(words, 1) == 1;
    assert words[0..2] == words;
    assert words[1..] == [b + H2];
    assert Unwords(words) == (H2 + a) + " " + (b + H2);
    assert Joined(words, 0) == H2 + (a + " " + b) + H2;
    TocStepLevel2([], a + " " + b);
    assert TocOf(words, 1) == [[a + " " + b]];
    TrailingMarker(b);
    assert Joined(words, 1) == b + H2;
  }

  /**
   * A heading written with spaces inside its markers, `== x ==`, falls apart
   * into the words `==`, `x` and `==`.
   */
  lemma {:induction false} SpacedHeadingWords(x: string)
    requires |x| > 0 && NoSpace(x)
    ensures Fields(H2 + " " + x + " " + H2) == [H2, x, H2]
  {
    assert NoSpace(H2) by {
      assert !IsSpace('=');
    }
    ThreeFields(H2, x, H2);
  }

  lemma {:induction false} ThreeFields(p: string, x: string, q: string)
    requires |p| > 0 && NoSpace(p) && |x| > 0 && NoSpace(x) && |q| > 0 && NoSpace(q)
    ensures Fields(p + " " + x + " " + q) == [p, x, q]
  {
    var words := [p, x, q];
    assert words[1..] == [x, q] && words[1..][1..] == [q];
    assert Unwords(words[1..]) == x + " " + q;
    assert Unwords(words) == p + " " + (x + " " + q);
    assert p + " " + (x + " " + q) == p + " " + x + " " + q;
    FieldsOfUnwords(words);
  }

  /**
   * None of the words `==`, `x` and `==` is a heading, so `== x ==` gets no
   * entry in the table, although Major still turns it into an `<h2>`.
   */
  lemma {:induction false} SpacedHeadingNotInToc(x: string)
    requires |x| > 0 && '=' !in x && '\n' !in x
    ensures HeadingsClosed([H2, x, H2])
    ensures TocOf([H2, x, H2], 3) == []
    ensures Major(H2 + " " + x + " " + H2) == HeadingTag('2')(" " + x + " ")
  {
    var words := [H2, x, H2];
    assert !OpensHeading(H2) by {
      assert ByteLen(H2) == 2;
    }
    assert !StartsWith(x, H2) by {
      if |x| >= 2 {
        assert x[..2][0] == x[0];
      }
    }
    assert HeadingsClosed(words);
    assert Joined(words, 0) == H2 && Joined(words, 1) == x && Joined(words, 2) == H2;
    SingleMarker();
    MissingCharAbsent(x, H2, 0);
    MissingCharAbsent(x, H3, 0);
    FindPairNoOpening(x, H2, H2);
    FindPairNoOpening(x, H3, H3);
    assert TocOf(words, 1) == [];
    assert TocOf(words, 2) == [];
    MajorLevel2(" " + x + " ");
    assert H2 + (" " + x + " ") + H2 == H2 + " " + x + " " + H2;
  }

  /** The word `==` on its own is no heading. */
  lemma {:induction false} SingleMarker()
    ensures TocStep([], H2) == []
  {
    TrailingMarker("");
    assert "" + H2 == H2;
  }

  /** Words that all end in `==` open no heading, so each is filed as it is. */
  lemma {:induction false} AllClosed(words: seq<string>)
    requires forall i :: 0 <= i < |words| ==> EndsWith(words[i], H2)
    ensures HeadingsClosed(words)
    ensures forall i :: 0 <= i < |words| ==> Joined(words, i) == words[i]
  {
  }

  /** `==x==` ends in `==`. */
  lemma {:induction false} EndsWithMarker(o: string, x: string)
    ensures EndsWith(o + x + H2, H2)
  {
    var w := o + x + H2;
    assert w[|w| - 2..] == H2;
  }

  /**
   * Level-3 headings go under the level-2 heading before them: the words
   * `==a==`, `===c===` and `==b==` give the table `[[a, c], [b]]`.
   */
  lemma {:induction false} NestedToc(a: string, c: string, b: string)
    requires |a| > 0 && |b| > 0 && '=' !in a && '=' !in b && '=' !in c
    requires '\n' !in a && '\n' !in b && '\n' !in c
    ensures HeadingsClosed([H2 + a + H2, H3 + c + H3, H2 + b + H2])
    ensures TocOf([H2 + a + H2, H3 + c + H3, H2 + b + H2], 3) == [[a, c], [b]]
  {
    var words := [H2 + a + H2, H3 + c + H3, H2 + b + H2];
    EndsWithMarker(H2, a);
    EndsWithMarker(H2, b);
    EndsWithMarker(H3 + c, "=");
    assert H3 + c + "=" + H2 == words[1];
    AllClosed(words);
    TocStepLevel2([], a);
    assert TocOf(words, 1) == [[a]];
    var one: Toc := [[a]];
    TocStepLevel3(one, c);
    assert one[..0] == [] && one[0] + [c] == [a, c];
    assert TocOf(words, 2) == [[a, c]];
    TocStepLevel2([[a, c]], b);
  }

  /** A text without `==` gives a word list without headings. */
  lemma {:induction false} NoMarkerNoToc(words: seq<string>, n: nat)
    requires n <= |words| && HeadingsClosed(words)
    requires forall i :: 0 <= i < |words| ==> !Contains(words[i], H2)
    ensures TocOf(words, n) == []
  {
    if n > 0 {
      NoMarkerNoToc(words, n - 1);
      var w := words[n - 1];
      assert !OpensHeading(w) by {
        if StartsWith(w, H2) {
          assert At(w, 0, H2);
        }
      }
      ContainsPrefix(w, H3, 2);
      assert H3[..2] == H2;
      FindPairNoOpening(w, H2, H2);
      FindPairNoOpening(w, H3, H3);
    }
  }

  /** The HTML of a heading holds no `==` when its title holds no `=`. */
  lemma {:induction false} TagHasNoMarker(level: char, x: string)
    requires level != '=' && '=' !in x
    ensures !Contains(HeadingTag(level)(x), H2)
  {
    var p := "<h" + [level] + " id=";
    var q := "\"" + x + "\">" + x + "</h" + [level] + ">";
    assert HeadingTag(level)(x) == p + q;
    assert '=' !in p[..|p| - 1];
    assert '=' !in q by {
      assert forall i :: 0 <= i < |q| ==> q[i] in "\">" + "</h" + [level] + ">" || q[i] in x;
    }
    NoDoubleAcross(p, q, '=');
    assert [ '=', '=' ] == H2;
  }

  /**
   * Level-5 and level-4 headings become HTML before the words are scanned:
   * `=====x=====` becomes `<h5 id="x">x</h5>`, `====x====` becomes
   * `<h4 id="x">x</h4>`, and neither leaves a `==` for the table.
   */
  lemma {:induction false} MinorLevel5(x: string)
    requires |x| > 0 && '=' !in x && '\n' !in x
    ensures Minor(H5 + x + H5) == HeadingTag('5')(x)
    ensures !Contains(Minor(H5 + x + H5), H2)
  {
    PairRewriteWhole(x, H5, H5, HeadingTag('5'));
    var t := HeadingTag('5')(x);
    TagHasNoMarker('5', x);
    ContainsPrefix(t, H4, 2);
    assert H4[..2] == H2;
    PairRewriteNoOpening(t, H4, H4, HeadingTag('4'));
  }

  lemma {:induction false} MinorLevel4(x: string)
    requires |x| > 0 && '=' !in x && '\n' !in x
    ensures Minor(H4 + x + H4) == HeadingTag('4')(x)
    ensures !Contains(Minor(H4 + x + H4), H2)
  {
    var s := H4 + x + H4;
    RunAbsent('=', x, 4, 5);
    assert Repeat('=', 4) == H4 && Repeat('=', 5) == H5;
    PairRewriteNoOpening(s, H5, H5, HeadingTag('5'));
    PairRewriteWhole(x, H4, H4, HeadingTag('4'));
    TagHasNoMarker('4', x);
  }

  /**
   * A text that is one level-5 or level-4 heading adds nothing to the table
   * of contents: what is left of it after Minor holds no `==`.
   */
  lemma {:induction false} MinorHeadingNotInToc(x: string, n: nat)
    requires n == 5 || n == 4
    requires |x| > 0 && '=' !in x && '\n' !in x
    ensures HeadingsClosed(Fields(Minor(Repeat('=', n) + x + Repeat('=', n))))
    ensures TocOf(Fields(Minor(Repeat('=', n) + x + Repeat('=', n))),
                  |Fields(Minor(Repeat('=', n) + x + Repeat('=', n)))|) == []
  {
    var s := Minor(Repeat('=', n) + x + Repeat('=', n));
    if n == 5 {
      assert Repeat('=', n) == H5;
      MinorLevel5(x);
    } else {
      assert Repeat('=', n) == H4;
      MinorLevel4(x);
    }
    assert !Contains(s, H2);
    var words := Fields(s);
    FieldsInfix(s, H2);
    assert forall i :: 0 <= i < |words| ==> !OpensHeading(words[i]) by {
      forall i | 0 <= i < |words| ensures !OpensHeading(words[i]) {
        if StartsWith(words[i], H2) {
          assert At(words[i], 0, H2);
        }
      }
    }
    NoMarkerNoToc(words, |words|);
  }

  /** The HTML of a heading starts no match of a run of two or more `=`. */
  lemma {:induction false} TagSkip(level: char, x: string, rest: string, o: string, f: string -> string)
    requires level != '=' && '=' !in x && 1 < |o| && o == Repeat('=', |o|)
    ensures PairRewrite(HeadingTag(level)(x) + rest, o, o, f) ==
            HeadingTag(level)(x) + PairRewrite(rest, o, o, f)
  {
    var p := "<h" + [level] + " id";
    var q := "\"" + x + "\">" + x + "</h" + [level] + ">";
    assert HeadingTag(level)(x) == p + "=" + q;
    assert '=' !in p by {
      assert forall i :: 0 <= i < |p| ==> p[i] in "<h id" || p[i] == level;
    }
    assert '=' !in q by {
      assert forall i :: 0 <= i < |q| ==> q[i] in "\">" + "</h" + [level] + ">" || q[i] in x;
    }
    assert "=" == Repeat('=', 1);
    RunSkipAfter(p, "=", q, rest, o, o, f, '=');
  }

  /**
   * Minor acts heading by heading: `a=====x=====b` becomes `a`, the level-5
   * HTML of `x`, and Minor of `b`.
   */
  lemma {:induction false} MinorStep5(a: string, x: string, b: string)
    requires '=' !in a && |x| > 0 && '=' !in x && '\n' !in x
    ensures Minor(a + H5 + x + H5 + b) == a + HeadingTag('5')(x) + Minor(b)
  {
    var t := HeadingTag('5')(x);
    var b5 := PairRewrite(b, H5, H5, HeadingTag('5'));
    PairRewriteMatch(a, x, b, H5, H5, HeadingTag('5'));
    assert H4 == Repeat('=', 4);
    TagSkip('5', x, b5, H4, HeadingTag('4'));
    PairRewriteSkips(a, t + b5, H4, H4, HeadingTag('4'));
    Regroup2(a, t, b5);
    Regroup2(a, t, PairRewrite(b5, H4, H4, HeadingTag('4')));
  }

  /**
   * `a====x====b` becomes `a`, the level-4 HTML of `x`, and Minor of `b`,
   * when `b` does not start with `=` (otherwise the run would be longer).
   */
  lemma {:induction false} MinorStep4(a: string, x: string, b: string)
    requires '=' !in a && |x| > 0 && '=' !in x && '\n' !in x && !Leads(b, '=')
    ensures Minor(a + H4 + x + H4 + b) == a + HeadingTag('4')(x) + Minor(b)
  {
    var b5 := PairRewrite(b, H5, H5, HeadingTag('5'));
    assert H5 == Repeat('=', 5) && H4 == Repeat('=', 4);
    RunPairSkip(a, H4, x, b, H5, H5, HeadingTag('5'), '=');
    PairRewriteMatch(a, x, b5, H4, H4, HeadingTag('4'));
  }

  /** `===x===` becomes `<h3 id="x">x</h3>`. */
  lemma {:induction false} MajorLevel3(x: string)
    requires |x| > 0 && '=' !in x && '\n' !in x
    ensures Major(H3 + x + H3) == HeadingTag('3')(x)
  {
    var t := HeadingTag('3')(x);
    PairRewriteWhole(x, H3, H3, HeadingTag('3'));
    TagHasNoMarker('3', x);
    PairRewriteNoOpening(t, H2, H2, HeadingTag('2'));
  }

  /** `==x==` becomes `<h2 id="x">x</h2>`. */
  lemma {:induction false} MajorLevel2(x: string)
    requires |x| > 0 && '=' !in x && '\n' !in x
    ensures Major(H2 + x + H2) == HeadingTag('2')(x)
  {
    var s := H2 + x + H2;
    NoLevel3Inside(x);
    PairRewriteNoOpening(s, H3, H3, HeadingTag('3'));
    PairRewriteWhole(x, H2, H2, HeadingTag('2'));
  }

  /**
   * Major acts heading by heading: `a===x===b` becomes `a`, the level-3 HTML
   * of `x`, and Major of `b`.
   */
  lemma {:induction false} MajorStep3(a: string, x: string, b: string)
    requires '=' !in a && |x| > 0 && '=' !in x && '\n' !in x
    ensures Major(a + H3 + x + H3 + b) == a + HeadingTag('3')(x) + Major(b)
  {
    var t := HeadingTag('3')(x);
    var b3 := PairRewrite(b, H3, H3, HeadingTag('3'));
    PairRewriteMatch(a, x, b, H3, H3, HeadingTag('3'));
    assert H2 == Repeat('=', 2);
    TagSkip('3', x, b3, H2, HeadingTag('2'));
    PairRewriteSkips(a, t + b3, H2, H2, HeadingTag('2'));
    Regroup2(a, t, b3);
    Regroup2(a, t, PairRewrite(b3, H2, H2, HeadingTag('2')));
  }

  /**
   * `a==x==b` becomes `a`, the level-2 HTML of `x`, and Major of `b`, when
   * `b` does not start with `=`.
   */
  lemma {:induction false} MajorStep2(a: string, x: string, b: string)
    requires '=' !in a && |x| > 0 && '=' !in x && '\n' !in x && !Leads(b, '=')
    ensures Major(a + H2 + x + H2 + b) == a + HeadingTag('2')(x) + Major(b)
  {
    var b3 := PairRewrite(b, H3, H3, HeadingTag('3'));
    assert H3 == Repeat('=', 3) && H2 == Repeat('=', 2);
    RunPairSkip(a, H2, x, b, H3, H3, HeadingTag('3'), '=');
    PairRewriteMatch(a, x, b3, H2, H2, HeadingTag('2'));
  }
}
