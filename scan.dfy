/**
 * Small scanners standing in for the regular expressions of wikidown.go.
 * Each one reproduces what Go's regexp package (RE2 syntax, leftmost-first,
 * `.` not matching a newline) does for one shape of pattern:
 *
 *  - `(?m)^X(.*)` replaced by `A$1B`: a rewrite of every line that starts with X;
 *  - `O(.*?)C` replaced by a template of `$1`: the leftmost opening O whose
 *    nearest closing C lies on the same line, then the scan resumes after C;
 *  - FindStringSubmatch(...)[1] and MatchString for the same `O(.*?)C` shape.
 */
module Scan {
  import opened Wrappers
  import opened Text

  /** One line under `(?m)^marker(.*)` replaced by `pre$1post`. */
  function PrefixRewrite(line: string, marker: string, pre: string, post: string): string
  {
    if StartsWith(line, marker) then pre + line[|marker|..] + post else line
  }

  /** The whole-text substitution `(?m)^marker(.*)` to `pre$1post`. */
  function LinePrefixPass(s: string, marker: string, pre: string, post: string): string
  {
    MapLines(s, l => PrefixRewrite(l, marker, pre, post))
  }

  /**
   * The substitution acts line by line: the text keeps its number of lines,
   * every line that starts with the marker is rewritten and every other line
   * is left as it was.
   */
  lemma {:induction false} LinePrefixPassLines(s: string, marker: string, pre: string, post: string)
    requires '\n' !in marker && '\n' !in pre && '\n' !in post
    ensures |Lines(LinePrefixPass(s, marker, pre, post))| == |Lines(s)|
    ensures forall i :: 0 <= i < |Lines(s)| ==>
      var l := Lines(s)[i];
      Lines(LinePrefixPass(s, marker, pre, post))[i] ==
        if StartsWith(l, marker) then pre + l[|marker|..] + post else l
  {
    var f := l => PrefixRewrite(l, marker, pre, post);
    forall l | '\n' !in l ensures '\n' !in f(l) {
      if StartsWith(l, marker) {
        assert forall i :: 0 <= i < |l[|marker|..]| ==> l[|marker|..][i] in l;
      }
    }
    LinesOfMapLines(s, f);
  }

  /** A text in which no line starts with the marker is left unchanged. */
  lemma {:induction false} LinePrefixPassIdentity(s: string, marker: string, pre: string, post: string)
    requires forall i :: 0 <= i < |Lines(s)| ==> !StartsWith(Lines(s)[i], marker)
    ensures LinePrefixPass(s, marker, pre, post) == s
  {
    MapLinesIdentity(s, l => PrefixRewrite(l, marker, pre, post));
  }

  /**
   * Where the lazy group `(.*?)` ends: the smallest `k` such that `closing`
   * occurs at `k` and `s[..k]` holds no newline (CloseAtSpec).
   */
  function CloseAt(s: string, closing: string): (r: Option<nat>)
    ensures r.Some? ==> r.value + |closing| <= |s|
    decreases |s|
  {
    if StartsWith(s, closing) then Some(0)
    else if |s| == 0 || s[0] == '\n' then None
    else
      match CloseAt(s[1..], closing)
      case None => None
      case Some(k) => Some(k + 1)
  }

  /** CloseAt finds the first closing delimiter before the end of the line, and only that. */
  lemma {:induction false} CloseAtSpec(s: string, closing: string)
    ensures CloseAt(s, closing).Some? ==>
      At(s, CloseAt(s, closing).value, closing) && '\n' !in s[..CloseAt(s, closing).value]
    ensures CloseAt(s, closing).Some? ==>
      forall k :: 0 <= k < CloseAt(s, closing).value ==> !At(s, k, closing)
    ensures CloseAt(s, closing).None? ==>
      forall k :: 0 <= k <= |s| && '\n' !in s[..k] ==> !At(s, k, closing)
  {
    CloseAtFound(s, closing);
    CloseAtFirst(s, closing);
    CloseAtMissing(s, closing);
  }

  lemma {:induction false} CloseAtFound(s: string, closing: string)
    ensures CloseAt(s, closing).Some? ==>
      At(s, CloseAt(s, closing).value, closing) && '\n' !in s[..CloseAt(s, closing).value]
    decreases |s|
  {
    if StartsWith(s, closing) {
      assert s[0..|closing|] == s[..|closing|];
    } else if |s| > 0 && s[0] != '\n' {
      CloseAtFound(s[1..], closing);
      if CloseAt(s[1..], closing).Some? {
        var k := CloseAt(s[1..], closing).value;
        assert s[1..][k..k + |closing|] == s[k + 1..k + 1 + |closing|];
        assert s[..k + 1] == [s[0]] + s[1..][..k];
      }
    }
  }

  lemma {:induction false} CloseAtFirst(s: string, closing: string)
    ensures CloseAt(s, closing).Some? ==>
      forall k :: 0 <= k < CloseAt(s, closing).value ==> !At(s, k, closing)
    decreases |s|
  {
    if !StartsWith(s, closing) && |s| > 0 && s[0] != '\n' {
      CloseAtFirst(s[1..], closing);
      assert !At(s, 0, closing);
      if CloseAt(s[1..], closing).Some? {
        var k := CloseAt(s[1..], closing).value;
        forall j | 1 <= j < k + 1 ensures !At(s, j, closing) {
          assert !At(s[1..], j - 1, closing);
          if j + |closing| <= |s| {
            assert s[1..][j - 1..j - 1 + |closing|] == s[j..j + |closing|];
          }
        }
      }
    }
  }

  lemma {:induction false} CloseAtMissing(s: string, closing: string)
    ensures CloseAt(s, closing).None? ==>
      forall k :: 0 <= k <= |s| && '\n' !in s[..k] ==> !At(s, k, closing)
    decreases |s|
  {
    if !StartsWith(s, closing) {
      assert !At(s, 0, closing);
      if |s| == 0 || s[0] == '\n' {
        assert forall k :: 1 <= k <= |s| ==> s[..k][0] == s[0];
      } else {
        CloseAtMissing(s[1..], closing);
        if CloseAt(s[1..], closing).None? {
          forall k | 1 <= k <= |s| && '\n' !in s[..k]
            ensures !At(s, k, closing)
          {
            assert s[1..][..k - 1] == s[1..k];
            assert forall i :: 0 <= i < k - 1 ==> s[1..k][i] == s[..k][i + 1];
            if k + |closing| <= |s| {
              assert s[1..][k - 1..k - 1 + |closing|] == s[k..k + |closing|];
            }
          }
        }
      }
    }
  }

  /** The length of `$1` when `opening(.*?)closing` matches at the start of `s`. */
  function PairAt(s: string, opening: string, closing: string): (r: Option<nat>)
    ensures r.Some? ==> |opening| + r.value + |closing| <= |s|
  {
    if StartsWith(s, opening) then CloseAt(s[|opening|..], closing) else None
  }

  /**
   * ReplaceAllString for `opening(.*?)closing`, the template being `f` of the
   * captured group.
   */
  function PairRewrite(s: string, opening: string, closing: string, f: string -> string): string
    requires |opening| > 0
    decreases |s|
  {
    if |s| == 0 then ""
    else
      match PairAt(s, opening, closing)
      case Some(k) =>
        f(s[|opening|..|opening| + k]) + PairRewrite(s[|opening| + k + |closing|..], opening, closing, f)
      case None => [s[0]] + PairRewrite(s[1..], opening, closing, f)
  }

  /** FindStringSubmatch(s)[1] for `opening(.*?)closing`: the group of the leftmost match. */
  function FindPair(s: string, opening: string, closing: string): Option<string>
    requires |opening| > 0
    decreases |s|
  {
    if |s| == 0 then None
    else
      match PairAt(s, opening, closing)
      case Some(k) => Some(s[|opening|..|opening| + k])
      case None => FindPair(s[1..], opening, closing)
  }

  /** A closing delimiter on the same line is always found by CloseAt. */
  lemma {:induction false} CloseAtFinds(s: string, closing: string, k: nat)
    requires At(s, k, closing) && '\n' !in s[..k]
    ensures CloseAt(s, closing).Some? && CloseAt(s, closing).value <= k
  {
    CloseAtSpec(s, closing);
  }

  /** The group ends at the first closing delimiter after a group free of its first character. */
  lemma {:induction false} CloseAtAfter(x: string, closing: string, b: string)
    requires |closing| > 0 && closing[0] !in x && '\n' !in x
    ensures CloseAt(x + closing + b, closing) == Some(|x|)
    decreases |x|
  {
    var s := x + closing + b;
    if |x| == 0 {
      assert s[..|closing|] == closing;
    } else {
      assert s[0] == x[0] != closing[0];
      assert s[1..] == x[1..] + closing + b;
      CloseAtAfter(x[1..], closing, b);
    }
  }

  /** No match can start inside a stretch free of the opening's first character. */
  lemma {:induction false} PairRewriteSkips(a: string, rest: string, opening: string, closing: string, f: string -> string)
    requires |opening| > 0 && opening[0] !in a
    ensures PairRewrite(a + rest, opening, closing, f) == a + PairRewrite(rest, opening, closing, f)
    decreases |a|
  {
    if |a| > 0 {
      var s := a + rest;
      assert s[0] == a[0] != opening[0];
      assert !StartsWith(s, opening);
      assert s[1..] == a[1..] + rest;
      PairRewriteSkips(a[1..], rest, opening, closing, f);
    } else {
      assert a + rest == rest;
    }
  }

  /**
   * A delimited pair is rewritten through the template, and the scan resumes
   * right after its closing delimiter: `a O x C b` becomes `a f(x)` followed by
   * the rewrite of `b`.
   */
  lemma {:induction false} PairRewriteMatch(a: string, x: string, b: string, opening: string, closing: string, f: string -> string)
    requires |opening| > 0 && |closing| > 0
    requires opening[0] !in a && closing[0] !in x && '\n' !in x
    ensures PairRewrite(a + opening + x + closing + b, opening, closing, f) ==
            a + f(x) + PairRewrite(b, opening, closing, f)
  {
    var m := opening + x + closing + b;
    assert a + opening + x + closing + b == a + m;
    PairRewriteSkips(a, m, opening, closing, f);
    PairRewriteAtStart(x, b, opening, closing, f);
  }

  /** The step of PairRewriteMatch where the match starts at the very beginning. */
  lemma {:induction false} PairRewriteAtStart(x: string, b: string, opening: string, closing: string, f: string -> string)
    requires |opening| > 0 && |closing| > 0
    requires closing[0] !in x && '\n' !in x
    ensures PairRewrite(opening + x + closing + b, opening, closing, f) ==
            f(x) + PairRewrite(b, opening, closing, f)
  {
    PairAtStart(x, b, opening, closing);
    PairRewriteMatched(x, b, opening, closing, f);
  }

  /** The rewrite of a text whose start is matched with group `x`. */
  lemma {:induction false} PairRewriteMatched(x: string, b: string, opening: string, closing: string, f: string -> string)
    requires |opening| > 0 && PairAt(opening + x + closing + b, opening, closing) == Some(|x|)
    ensures PairRewrite(opening + x + closing + b, opening, closing, f) ==
            f(x) + PairRewrite(b, opening, closing, f)
  {
    Slices4(opening, x, closing, b);
    PairRewriteStep(opening + x + closing + b, opening, closing, f, x, b);
  }

  /** A pair at the start of the text is matched, its group being `x`. */
  lemma {:induction false} PairAtStart(x: string, b: string, opening: string, closing: string)
    requires |opening| > 0 && |closing| > 0
    requires closing[0] !in x && '\n' !in x
    ensures PairAt(opening + x + closing + b, opening, closing) == Some(|x|)
  {
    Slices4(opening, x, closing, b);
    CloseAtAfter(x, closing, b);
  }

  /** One step of the rewrite when a pair starts the text. */
  lemma {:induction false} PairRewriteStep(s: string, opening: string, closing: string, f: string -> string,
                                           g: string, rest: string)
    requires |opening| > 0 && |s| > 0 && PairAt(s, opening, closing) == Some(|g|)
    requires s[|opening|..|opening| + |g|] == g && s[|opening| + |g| + |closing|..] == rest
    ensures PairRewrite(s, opening, closing, f) == f(g) + PairRewrite(rest, opening, closing, f)
  {
  }

  /**
   * The passes for runs of one character, longest run first: a run shorter
   * than the opening, followed by anything but that character, starts no
   * match.
   */
  lemma {:induction false} RunSkip(r: string, rest: string, opening: string, closing: string,
                                   f: string -> string, c: char)
    requires |r| < |opening| && opening == Repeat(c, |opening|) && r == Repeat(c, |r|)
    requires !Leads(rest, c)
    ensures PairRewrite(r + rest, opening, closing, f) == r + PairRewrite(rest, opening, closing, f)
    decreases |r|
  {
    var s := r + rest;
    if |r| == 0 {
      assert s == rest;
    } else {
      if |opening| <= |s| {
        assert s[..|opening|][|r|] == rest[0];
      }
      assert !StartsWith(s, opening);
      assert s[1..] == r[1..] + rest;
      assert r[1..] == Repeat(c, |r| - 1);
      RunSkip(r[1..], rest, opening, closing, f, c);
      Regroup2([r[0]], r[1..], PairRewrite(rest, opening, closing, f));
      assert [r[0]] + r[1..] == r;
    }
  }

  /**
   * A stretch free of `c`, a run of `c` shorter than the opening and a
   * non-empty stretch free of `c` start no match: the rewrite goes on after them.
   */
  lemma {:induction false} RunSkipAfter(a: string, r: string, q: string, rest: string,
                                        opening: string, closing: string, f: string -> string, c: char)
    requires |r| < |opening| && opening == Repeat(c, |opening|) && r == Repeat(c, |r|)
    requires c !in a && |q| > 0 && c !in q
    ensures PairRewrite(a + r + q + rest, opening, closing, f) ==
            a + r + q + PairRewrite(rest, opening, closing, f)
  {
    assert opening[0] == c;
    PairRewriteSkips(q, rest, opening, closing, f);
    RunSkip(r, q + rest, opening, closing, f, c);
    PairRewriteSkips(a, r + (q + rest), opening, closing, f);
    Nest3(a, r, q, rest);
    Nest3(a, r, q, PairRewrite(rest, opening, closing, f));
  }

  /**
   * A pair of runs shorter than the opening, around a non-empty text free of
   * `c`, is left for a later pass when the text after it does not start with `c`.
   */
  lemma {:induction false} RunPairSkip(a: string, r: string, x: string, b: string,
                                       opening: string, closing: string, f: string -> string, c: char)
    requires |r| < |opening| && opening == Repeat(c, |opening|) && r == Repeat(c, |r|)
    requires c !in a && |x| > 0 && c !in x && !Leads(b, c)
    ensures PairRewrite(a + r + x + r + b, opening, closing, f) ==
            a + r + x + r + PairRewrite(b, opening, closing, f)
  {
    RunSkipAfter(a, r, x, r + b, opening, closing, f, c);
    RunSkip(r, b, opening, closing, f, c);
    Regroup2(a + r + x, r, b);
    Regroup2(a + r + x, r, PairRewrite(b, opening, closing, f));
  }

  /** A text that does not start with the opening's first character keeps its first character. */
  lemma {:induction false} LeadKept(b: string, opening: string, closing: string, f: string -> string, c: char)
    requires |opening| > 0 && opening[0] == c && !Leads(b, c)
    ensures !Leads(PairRewrite(b, opening, closing, f), c)
  {
    if |b| > 0 {
      if |opening| <= |b| {
        assert b[..|opening|][0] == b[0];
      }
      assert !StartsWith(b, opening);
    }
  }

  /** A text that is one delimited pair becomes the template applied to its group. */
  lemma {:induction false} PairRewriteWhole(x: string, opening: string, closing: string, f: string -> string)
    requires |opening| > 0 && |closing| > 0
    requires closing[0] !in x && '\n' !in x
    ensures PairRewrite(opening + x + closing, opening, closing, f) == f(x)
  {
    PairRewriteAtStart(x, "", opening, closing, f);
    assert opening + x + closing + "" == opening + x + closing;
    assert PairRewrite("", opening, closing, f) == "";
    assert f(x) + "" == f(x);
  }

  /** A text without the opening delimiter is left unchanged. */
  lemma {:induction false} PairRewriteIdentity(s: string, opening: string, closing: string, f: string -> string)
    requires |opening| > 0 && opening[0] !in s
    ensures PairRewrite(s, opening, closing, f) == s
  {
    PairRewriteSkips(s, "", opening, closing, f);
    assert s + "" == s;
  }

  /** The leftmost match of a pair found after a stretch free of the opening's first character. */
  lemma {:induction false} FindPairMatch(a: string, x: string, b: string, opening: string, closing: string)
    requires |opening| > 0 && |closing| > 0
    requires opening[0] !in a && closing[0] !in x && '\n' !in x
    ensures FindPair(a + opening + x + closing + b, opening, closing) == Some(x)
    decreases |a|
  {
    var s := a + opening + x + closing + b;
    if |a| == 0 {
      assert s == opening + x + closing + b;
      assert s[|opening|..] == x + closing + b;
      CloseAtAfter(x, closing, b);
      assert s[..|opening|] == opening;
      assert s[|opening|..|opening| + |x|] == x;
    } else {
      assert s[0] == a[0] != opening[0];
      assert !StartsWith(s, opening);
      assert s[1..] == a[1..] + opening + x + closing + b;
      FindPairMatch(a[1..], x, b, opening, closing);
    }
  }

  /** A match starting anywhere makes the search succeed. */
  lemma {:induction false} FindPairFrom(s: string, j: nat, opening: string, closing: string)
    requires |opening| > 0 && j < |s| && PairAt(s[j..], opening, closing).Some?
    ensures FindPair(s, opening, closing).Some?
    decreases j
  {
    if j > 0 && PairAt(s, opening, closing).None? {
      assert s[1..][j - 1..] == s[j..];
      FindPairFrom(s[1..], j - 1, opening, closing);
    }
  }

  /** A successful search stems from a match starting somewhere. */
  lemma {:induction false} FindPairWitness(s: string, opening: string, closing: string) returns (j: nat)
    requires |opening| > 0 && FindPair(s, opening, closing).Some?
    ensures j < |s| && PairAt(s[j..], opening, closing).Some?
    decreases |s|
  {
    if PairAt(s, opening, closing).Some? {
      j := 0;
    } else {
      var i := FindPairWitness(s[1..], opening, closing);
      assert s[1..][i..] == s[i + 1..];
      j := i + 1;
    }
  }

  /** The group found for a one-character closing delimiter holds neither that character nor a newline. */
  lemma {:induction false} FindPairGroup(s: string, opening: string, closing: string)
    requires |opening| > 0 && |closing| == 1 && FindPair(s, opening, closing).Some?
    ensures closing[0] !in FindPair(s, opening, closing).value
    ensures '\n' !in FindPair(s, opening, closing).value
    decreases |s|
  {
    match PairAt(s, opening, closing)
    case Some(k) =>
      var t := s[|opening|..];
      CloseAtSpec(t, closing);
      assert s[|opening|..|opening| + k] == t[..k];
      forall j | 0 <= j < k ensures t[j] != closing[0] {
        assert !At(t, j, closing);
        assert t[j..j + 1] == [t[j]];
      }
    case None =>
      FindPairGroup(s[1..], opening, closing);
  }

  /** The template `pre$1post`. */
  function Tag(pre: string, post: string): string -> string
  {
    x => pre + x + post
  }

  /** A text in which the opening delimiter does not occur is left unchanged. */
  lemma {:induction false} PairRewriteNoOpening(s: string, opening: string, closing: string, f: string -> string)
    requires |opening| > 0 && !Contains(s, opening)
    ensures PairRewrite(s, opening, closing, f) == s
    decreases |s|
  {
    if |s| > 0 {
      assert !At(s, 0, opening);
      assert !StartsWith(s, opening);
      if Contains(s[1..], opening) {
        ContainsTail(s, opening);
      }
      PairRewriteNoOpening(s[1..], opening, closing, f);
    }
  }

  /** Without the opening delimiter the search fails. */
  lemma {:induction false} FindPairNoOpening(s: string, opening: string, closing: string)
    requires |opening| > 0 && !Contains(s, opening)
    ensures FindPair(s, opening, closing) == None
    decreases |s|
  {
    if |s| > 0 {
      assert !At(s, 0, opening);
      assert !StartsWith(s, opening);
      if Contains(s[1..], opening) {
        ContainsTail(s, opening);
      }
      FindPairNoOpening(s[1..], opening, closing);
    }
  }
}
