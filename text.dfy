/**
 * String primitives that the converter relies on, stated with Go's semantics:
 * literal search and replace-all (strings.Index, strings.Replace with n = -1),
 * splitting and joining on newlines (strings.Split, strings.Join), splitting on
 * white space (strings.Fields), UTF-8 byte length (len on a Go string) and
 * decimal rendering (strconv.Itoa).
 */
module Wrappers {
  datatype Option<T> = None | Some(value: T)
}

module Text {
  import opened Wrappers

  /** `t` occurs in `s` starting at index `k`. */
  predicate At(s: string, k: int, t: string) {
    0 <= k && k + |t| <= |s| && s[k..k + |t|] == t
  }

  predicate StartsWith(s: string, p: string) {
    |p| <= |s| && s[..|p|] == p
  }

  predicate EndsWith(s: string, p: string) {
    |p| <= |s| && s[|s| - |p|..] == p
  }

  predicate Contains(s: string, t: string) {
    exists k :: 0 <= k <= |s| - |t| && At(s, k, t)
  }

  /** Concatenation regrouped around a prefix. */
  lemma {:induction false} Regroup2(a: string, b: string, c: string)
    ensures a + (b + c) == a + b + c
  {
  }

  lemma {:induction false} Regroup3(a: string, b: string, c: string, d: string)
    ensures a + (b + c + d) == a + b + c + d
  {
  }

  lemma {:induction false} Regroup5(a: string, b: string, c: string, d: string, e: string, f: string)
    ensures a + (b + c + d + e + f) == a + b + c + d + e + f
  {
  }

  lemma {:induction false} Regroup4(a: string, b: string, c: string, d: string, e: string)
    ensures a + (b + c + d) + e == a + b + c + d + e
  {
  }

  lemma {:induction false} Nest3(a: string, b: string, c: string, d: string)
    ensures a + (b + (c + d)) == a + b + c + d
  {
  }

  /** The text starts with the character `c`. */
  predicate Leads(s: string, c: char)
  {
    |s| > 0 && s[0] == c
  }

  /** The pieces of `p + x + q + b`, cut where each one ends. */
  lemma {:induction false} Slices4(p: string, x: string, q: string, b: string)
    ensures (p + x + q + b)[..|p|] == p
    ensures (p + x + q + b)[|p|..] == x + q + b
    ensures (p + x + q + b)[|p|..|p| + |x|] == x
    ensures (p + x + q + b)[|p| + |x| + |q|..] == b
  {
  }

  lemma {:induction false} ContainsTail(s: string, t: string)
    requires |s| > 0 && Contains(s[1..], t)
    ensures Contains(s, t)
  {
    var k :| 0 <= k <= |s[1..]| - |t| && At(s[1..], k, t);
    assert s[k + 1..k + 1 + |t|] == s[1..][k..k + |t|];
    assert At(s, k + 1, t);
  }

  lemma {:induction false} ContainsInfix(a: string, t: string, b: string)
    ensures Contains(a + t + b, t)
  {
    assert (a + t + b)[|a|..|a| + |t|] == t;
    assert At(a + t + b, |a|, t);
  }

  /** Every occurrence of `t` in `s` brings each character of `t` into `s`. */
  lemma {:induction false} MissingCharAbsent(s: string, t: string, i: nat)
    requires i < |t|
    ensures Contains(s, t) ==> t[i] in s
  {
    if Contains(s, t) {
      var k :| 0 <= k <= |s| - |t| && At(s, k, t);
      assert s[k + i] == s[k..k + |t|][i] == t[i];
    }
  }

  /** An occurrence one place further on in `s` is one in the tail of `s`. */
  lemma {:induction false} AtTail(s: string, t: string, k: nat)
    requires |s| > 0
    ensures At(s, k + 1, t) <==> At(s[1..], k, t)
  {
    if k + 1 + |t| <= |s| {
      assert s[1..][k..k + |t|] == s[k + 1..k + 1 + |t|];
    }
  }

  /** strings.Index: the first occurrence of `t` in `s`, if any. */
  function IndexOf(s: string, t: string): (r: Option<nat>)
    ensures r.Some? ==> At(s, r.value, t)
    ensures r.Some? ==> forall k :: 0 <= k < r.value ==> !At(s, k, t)
    ensures r.None? <==> !Contains(s, t)
    decreases |s|
  {
    if |s| < |t| then None
    else if s[..|t|] == t then Some(0)
    else
      match IndexOf(s[1..], t)
      case None =>
        assert forall k :: 0 <= k ==> !At(s, k, t) by {
          forall k | 0 <= k ensures !At(s, k, t) {
            if k > 0 {
              AtTail(s, t, k - 1);
            }
          }
        }
        None
      case Some(k) =>
        AtTail(s, t, k);
        assert forall j :: 1 <= j < k + 1 ==> !At(s, j, t) by {
          forall j | 1 <= j < k + 1 ensures !At(s, j, t) {
            AtTail(s, t, j - 1);
          }
        }
        Some(k + 1)
  }

  /**
   * strings.Replace(s, t, r, -1) for a non-empty `t`: every occurrence of `t`,
   * found left to right and without overlap, is replaced by `r`.
   */
  function Replace(s: string, t: string, r: string): string
    requires |t| > 0
    decreases |s|
  {
    if |s| < |t| then s
    else if s[..|t|] == t then r + Replace(s[|t|..], t, r)
    else [s[0]] + Replace(s[1..], t, r)
  }

  /** Replacing something that does not occur changes nothing. */
  lemma {:induction false} ReplaceAbsent(s: string, t: string, r: string)
    requires |t| > 0 && !Contains(s, t)
    ensures Replace(s, t, r) == s
    decreases |s|
  {
    if |s| >= |t| {
      assert !At(s, 0, t);
      if Contains(s[1..], t) {
        ContainsTail(s, t);
      }
      ReplaceAbsent(s[1..], t, r);
    }
  }

  /** Replacing every `c` by nothing leaves no `c`. */
  lemma {:induction false} ReplaceDeletes(s: string, c: char)
    ensures c !in Replace(s, [c], "")
    decreases |s|
  {
    if |s| >= 1 {
      ReplaceDeletes(s[1..], c);
      if s[..1] != [c] {
        assert s[0] != c by {
          assert s[..1] == [s[0]];
        }
      }
    }
  }

  /** An occurrence of `t` in `a + b` lies in `a`, lies in `b`, or holds the last character of `a`. */
  lemma {:induction false} ConcatOccurrence(a: string, b: string, t: string)
    ensures Contains(a + b, t) ==>
      Contains(a, t) || Contains(b, t) || (|a| > 0 && a[|a| - 1] in t)
  {
    if Contains(a + b, t) {
      var k :| 0 <= k <= |a + b| - |t| && At(a + b, k, t);
      if k + |t| <= |a| {
        assert (a + b)[k..k + |t|] == a[k..k + |t|];
        assert At(a, k, t);
      } else if k >= |a| {
        assert (a + b)[k..k + |t|] == b[k - |a|..k - |a| + |t|];
        assert At(b, k - |a|, t);
      } else {
        assert t[|a| - 1 - k] == (a + b)[k..k + |t|][|a| - 1 - k] == a[|a| - 1];
      }
    }
  }

  /** A text starts with `p` when its first character is p's and the rest starts with the rest of `p`. */
  lemma {:induction false} PrefixCons(x: string, p: string)
    requires |x| > 0 && |p| > 0 && x[0] == p[0] && StartsWith(x[1..], p[1..])
    ensures StartsWith(x, p)
  {
    assert x[..|p|] == [x[0]] + x[1..][..|p| - 1];
    assert p == [p[0]] + p[1..];
  }

  /**
   * A prefix of the replaced text is a prefix of the original text unless it
   * holds the first character of the replacement.
   */
  lemma {:induction false} ReplaceKeepsPrefix(x: string, t: string, r: string, p: string)
    requires |t| > 0 && |r| > 0
    requires StartsWith(Replace(x, t, r), p)
    ensures StartsWith(x, p) || r[0] in p
    decreases |x|
  {
    if |x| >= |t| && x[..|t|] == t {
      if |p| > 0 {
        assert p[0] == r[0];
      }
    } else if |x| >= |t| && |p| > 0 {
      var y := Replace(x[1..], t, r);
      assert ([x[0]] + y)[..|p|] == p;
      assert y[..|p| - 1] == p[1..];
      ReplaceKeepsPrefix(x[1..], t, r, p[1..]);
      if r[0] in p[1..] {
        var i :| 0 <= i < |p[1..]| && p[1..][i] == r[0];
        assert p[i + 1] == r[0];
      } else {
        assert StartsWith(x[1..], p[1..]);
        assert p[0] == x[0];
        PrefixCons(x, p);
      }
    }
  }

  /**
   * Replacing `t` by an `r` whose first and last characters never occur in `u`,
   * and which does not contain `u` itself, leaves no `u` behind unless `u` was
   * already there and is not `t`. This is what makes a chain of such
   * replacements idempotent.
   */
  lemma {:induction false} ReplaceLeavesNoNew(s: string, t: string, r: string, u: string)
    requires |t| > 0 && |r| > 0 && |u| > 0
    requires r[0] !in u && r[|r| - 1] !in u && !Contains(r, u)
    ensures Contains(Replace(s, t, r), u) ==> u != t && Contains(s, u)
    decreases |s|
  {
    var out := Replace(s, t, r);
    if Contains(out, u) {
      if |s| < |t| {
      } else if s[..|t|] == t {
        var rest := Replace(s[|t|..], t, r);
        ConcatOccurrence(r, rest, u);
        ReplaceLeavesNoNew(s[|t|..], t, r, u);
        assert s[|t|..|s|] == s[|t|..];
        ContainsWithin(s, |t|, |s|, u);
      } else {
        var rest := Replace(s[1..], t, r);
        assert out == [s[0]] + rest;
        var k :| 0 <= k <= |out| - |u| && At(out, k, u);
        if k > 0 {
          assert out[k..k + |u|] == rest[k - 1..k - 1 + |u|];
          assert At(rest, k - 1, u);
          ReplaceLeavesNoNew(s[1..], t, r, u);
          ContainsTail(s, u);
        } else {
          assert StartsWith(out, u);
          ReplaceKeepsPrefix(s, t, r, u);
          assert At(s, 0, u);
        }
      }
    }
  }

  /** Replacing a single character by a single character maps the string character by character. */
  function MapChar(s: string, a: char, b: char): (r: string)
    ensures |r| == |s|
    ensures forall i :: 0 <= i < |s| ==> r[i] == (if s[i] == a then b else s[i])
  {
    seq(|s|, i requires 0 <= i < |s| => if s[i] == a then b else s[i])
  }

  lemma {:induction false} ReplaceOneChar(s: string, a: char, b: char)
    ensures Replace(s, [a], [b]) == MapChar(s, a, b)
    decreases |s|
  {
    if |s| > 0 {
      ReplaceOneChar(s[1..], a, b);
      assert MapChar(s, a, b) == [if s[0] == a then b else s[0]] + MapChar(s[1..], a, b);
    }
  }

  /** MapChar works character by character, so it distributes over concatenation. */
  lemma {:induction false} MapCharConcat(x: string, y: string, a: char, b: char)
    ensures MapChar(x + y, a, b) == MapChar(x, a, b) + MapChar(y, a, b)
  {
  }

  /** A text without `a` is left alone. */
  lemma {:induction false} MapCharAbsent(s: string, a: char, b: char)
    requires a !in s
    ensures MapChar(s, a, b) == s
  {
  }

  /** A character other than `b` occurs after the mapping only where it occurred before. */
  lemma {:induction false} MapCharKeepsAbsent(s: string, a: char, b: char, c: char)
    requires c !in s && c != b
    ensures c !in MapChar(s, a, b)
  {
    var r := MapChar(s, a, b);
    forall i | 0 <= i < |r| ensures r[i] != c {
      assert s[i] in s;
    }
  }

  /** A character of `s` is an occurrence of the one-character string. */
  lemma {:induction false} CharContained(s: string, c: char)
    requires c in s
    ensures Contains(s, [c])
  {
    var k :| 0 <= k < |s| && s[k] == c;
    assert s[k..k + |[c]|] == [c];
    assert At(s, k, [c]);
  }

  /** Before the first occurrence of a character, the character does not occur. */
  lemma {:induction false} NoCharBefore(s: string, c: char, d: nat)
    requires d <= |s| && forall k :: 0 <= k < d ==> !At(s, k, [c])
    ensures c !in s[..d]
  {
    forall i | 0 <= i < d ensures s[..d][i] != c {
      assert s[i..i + 1] == [s[i]];
      assert !At(s, i, [c]);
    }
  }

  /** An occurrence inside a slice is an occurrence in the whole string. */
  lemma {:induction false} ContainsWithin(s: string, i: nat, j: nat, t: string)
    requires i <= j <= |s|
    ensures Contains(s[i..j], t) ==> Contains(s, t)
  {
    if Contains(s[i..j], t) {
      var k :| 0 <= k <= |s[i..j]| - |t| && At(s[i..j], k, t);
      var v := s[i..j][k..k + |t|];
      assert forall m :: 0 <= m < |t| ==> v[m] == s[i + k + m];
      assert s[i + k..i + k + |t|] == s[i..j][k..k + |t|];
      assert At(s, i + k, t);
    }
  }

  /** Containing a pattern means containing each of its prefixes. */
  lemma {:induction false} ContainsPrefix(s: string, t: string, n: nat)
    requires n <= |t|
    ensures Contains(s, t) ==> Contains(s, t[..n])
  {
    if Contains(s, t) {
      var k :| 0 <= k <= |s| - |t| && At(s, k, t);
      assert s[k..k + n] == s[k..k + |t|][..n];
      assert At(s, k, t[..n]);
    }
  }

  /** `n` copies of `c`. */
  function Repeat(c: char, n: nat): (r: string)
    ensures |r| == n && forall i :: 0 <= i < n ==> r[i] == c
  {
    seq(n, _ => c)
  }

  /**
   * A run of `n` copies of `c` does not occur in `m` copies, a non-empty
   * stretch free of `c`, and `m` copies again, when `m < n`.
   */
  lemma {:induction false} RunAbsent(c: char, x: string, m: nat, n: nat)
    requires m < n && |x| > 0 && c !in x
    ensures !Contains(Repeat(c, m) + x + Repeat(c, m), Repeat(c, n))
  {
    var s := Repeat(c, m) + x + Repeat(c, m);
    forall k | 0 <= k <= |s| - n ensures !At(s, k, Repeat(c, n)) {
      if k <= m {
        assert s[k..k + n][m - k] == s[m] == x[0];
      } else {
        assert s[k..k + n][0] == s[k] == x[k - m];
      }
    }
  }

  /**
   * Two adjacent copies of `c` do not occur in `p + q` when `c` can only be
   * the last character of `p` and does not occur in `q`.
   */
  lemma {:induction false} NoDoubleAcross(p: string, q: string, c: char)
    requires |p| > 0 && c !in p[..|p| - 1] && c !in q
    ensures !Contains(p + q, [c, c])
  {
    var s := p + q;
    forall k | 0 <= k <= |s| - 2 ensures !At(s, k, [c, c]) {
      if k + 1 < |p| {
        assert s[k..k + 2][0] == p[k] == p[..|p| - 1][k];
      } else {
        assert s[k..k + 2][1] == q[k + 1 - |p|];
      }
    }
  }

  // ---------------------------------------------------------------------------
  // Lines: strings.Split(s, "\n") and strings.Join(lines, "\n")

  /** strings.Split(s, "\n"): always at least one line, none holding a newline. */
  function Lines(s: string): (ls: seq<string>)
    ensures |ls| >= 1
    ensures forall i :: 0 <= i < |ls| ==> '\n' !in ls[i]
    decreases |s|
  {
    if |s| == 0 then [""]
    else if s[0] == '\n' then [""] + Lines(s[1..])
    else
      var rest := Lines(s[1..]);
      [[s[0]] + rest[0]] + rest[1..]
  }

  /** strings.Join(lines, "\n"). */
  function Join(ls: seq<string>): string
  {
    if |ls| == 0 then ""
    else if |ls| == 1 then ls[0]
    else ls[0] + "\n" + Join(ls[1..])
  }

  lemma {:induction false} JoinLines(s: string)
    ensures Join(Lines(s)) == s
    decreases |s|
  {
    if |s| > 0 {
      JoinLines(s[1..]);
      var rest := Lines(s[1..]);
      if s[0] != '\n' && |rest| > 1 {
        assert ([[s[0]] + rest[0]] + rest[1..])[1..] == rest[1..];
        assert Join(rest) == rest[0] + "\n" + Join(rest[1..]);
      }
    }
  }

  lemma {:induction false} LinesOfLine(a: string)
    requires '\n' !in a
    ensures Lines(a) == [a]
    decreases |a|
  {
    if |a| > 0 {
      LinesOfLine(a[1..]);
      assert [a[0]] + a[1..] == a;
    }
  }

  lemma {:induction false} LinesOfBreak(a: string, b: string)
    requires '\n' !in a
    ensures Lines(a + "\n" + b) == [a] + Lines(b)
    decreases |a|
  {
    if |a| == 0 {
      assert a + "\n" + b == "\n" + b;
      assert ("\n" + b)[1..] == b;
    } else {
      LinesOfBreak(a[1..], b);
      assert (a + "\n" + b)[1..] == a[1..] + "\n" + b;
      assert [a[0]] + a[1..] == a;
    }
  }

  /** Splitting a join gives back the lines. */
  lemma {:induction false} LinesJoin(ls: seq<string>)
    requires |ls| >= 1
    requires forall i :: 0 <= i < |ls| ==> '\n' !in ls[i]
    ensures Lines(Join(ls)) == ls
    decreases |ls|
  {
    if |ls| == 1 {
      LinesOfLine(ls[0]);
    } else {
      LinesJoin(ls[1..]);
      LinesOfBreak(ls[0], Join(ls[1..]));
    }
  }

  /** Applies `f` to every line of `s`; this is what a `(?m)^…(.*)` substitution does. */
  function MapLines(s: string, f: string -> string): string
  {
    var ls := Lines(s);
    Join(seq(|ls|, i requires 0 <= i < |ls| => f(ls[i])))
  }

  lemma {:induction false} LinesOfMapLines(s: string, f: string -> string)
    requires forall l :: '\n' !in l ==> '\n' !in f(l)
    ensures |Lines(MapLines(s, f))| == |Lines(s)|
    ensures forall i :: 0 <= i < |Lines(s)| ==> Lines(MapLines(s, f))[i] == f(Lines(s)[i])
  {
    var ls := Lines(s);
    var out := seq(|ls|, i requires 0 <= i < |ls| => f(ls[i]));
    LinesJoin(out);
  }

  /** A rewrite that fixes every line fixes the text. */
  lemma {:induction false} MapLinesIdentity(s: string, f: string -> string)
    requires forall i :: 0 <= i < |Lines(s)| ==> f(Lines(s)[i]) == Lines(s)[i]
    ensures MapLines(s, f) == s
  {
    var ls := Lines(s);
    assert seq(|ls|, i requires 0 <= i < |ls| => f(ls[i])) == ls;
    JoinLines(s);
  }

  // ---------------------------------------------------------------------------
  // White space and words: strings.Fields

  /** unicode.IsSpace. */
  predicate IsSpace(c: char) {
    var n := c as int;
    n == 0x20 || 0x09 <= n <= 0x0D || n == 0x85 || n == 0xA0 || n == 0x1680 ||
    0x2000 <= n <= 0x200A || n == 0x2028 || n == 0x2029 || n == 0x202F ||
    n == 0x205F || n == 0x3000
  }

  predicate NoSpace(w: string) {
    forall i :: 0 <= i < |w| ==> !IsSpace(w[i])
  }

  /** The longest prefix of `s` free of white space. */
  function Word(s: string): (w: string)
    ensures |w| <= |s| && w == s[..|w|] && NoSpace(w)
    ensures |w| < |s| ==> IsSpace(s[|w|])
    decreases |s|
  {
    if |s| == 0 || IsSpace(s[0]) then "" else [s[0]] + Word(s[1..])
  }

  /** strings.Fields: the maximal runs of non-space characters, in order. */
  function Fields(s: string): (ws: seq<string>)
    ensures forall i :: 0 <= i < |ws| ==> |ws[i]| > 0 && NoSpace(ws[i])
    decreases |s|
  {
    if |s| == 0 then []
    else if IsSpace(s[0]) then Fields(s[1..])
    else
      var w := Word(s);
      [w] + Fields(s[|w|..])
  }

  /** Words joined by single spaces, as Header rebuilds a multi-word heading. */
  function Unwords(ws: seq<string>): string
  {
    if |ws| == 0 then "" else if |ws| == 1 then ws[0] else ws[0] + " " + Unwords(ws[1..])
  }

  lemma {:induction false} WordOfPrefix(w: string, rest: string)
    requires NoSpace(w)
    requires |rest| == 0 || IsSpace(rest[0])
    ensures Word(w + rest) == w
    decreases |w|
  {
    if |w| > 0 {
      assert (w + rest)[1..] == w[1..] + rest;
      WordOfPrefix(w[1..], rest);
      assert [w[0]] + w[1..] == w;
    }
  }

  /** Splitting words joined by spaces gives back the words. */
  lemma {:induction false} FieldsOfUnwords(ws: seq<string>)
    requires forall i :: 0 <= i < |ws| ==> |ws[i]| > 0 && NoSpace(ws[i])
    ensures Fields(Unwords(ws)) == ws
    decreases |ws|
  {
    if |ws| == 1 {
      WordOfPrefix(ws[0], "");
      assert ws[0] + "" == ws[0];
      assert ws[0][|ws[0]|..] == "";
    } else if |ws| > 1 {
      var tail := Unwords(ws[1..]);
      var s := ws[0] + " " + tail;
      WordOfPrefix(ws[0], " " + tail);
      assert s == ws[0] + (" " + tail);
      assert s[|ws[0]|..] == " " + tail;
      assert (" " + tail)[1..] == tail;
      FieldsOfUnwords(ws[1..]);
    }
  }

  /** Every field is a piece of the text, so what occurs in a field occurs in the text. */
  lemma {:induction false} FieldsInfix(s: string, t: string)
    ensures forall i :: 0 <= i < |Fields(s)| && Contains(Fields(s)[i], t) ==> Contains(s, t)
    decreases |s|
  {
    if |s| > 0 {
      if IsSpace(s[0]) {
        FieldsInfix(s[1..], t);
        if Contains(s[1..], t) {
          ContainsTail(s, t);
        }
      } else {
        var w := Word(s);
        FieldsInfix(s[|w|..], t);
        ContainsWithin(s, 0, |w|, t);
        ContainsWithin(s, |w|, |s|, t);
        assert s[|w|..|s|] == s[|w|..];
      }
    }
  }

  // ---------------------------------------------------------------------------
  // UTF-8 length and decimal numbers

  /** Number of bytes UTF-8 uses for `c`. */
  function Utf8Width(c: char): (n: nat)
    ensures 1 <= n <= 4
    ensures n == 1 <==> c as int < 0x80
  {
    var v := c as int;
    if v < 0x80 then 1 else if v < 0x800 then 2 else if v < 0x10000 then 3 else 4
  }

  /** len(s) for the Go string holding `s`. */
  function ByteLen(s: string): (n: nat)
    ensures n >= |s|
    ensures (forall i :: 0 <= i < |s| ==> s[i] as int < 0x80) ==> n == |s|
  {
    if |s| == 0 then 0 else Utf8Width(s[0]) + ByteLen(s[1..])
  }

  function Digit(d: nat): char
    requires d < 10
  {
    "0123456789"[d]
  }

  predicate IsDigit(c: char) { '0' <= c <= '9' }

  function DigitValue(c: char): nat
    requires IsDigit(c)
  {
    c as int - '0' as int
  }

  /** strconv.Itoa for a non-negative value. */
  function NatToString(n: nat): (s: string)
    ensures |s| > 0 && forall i :: 0 <= i < |s| ==> IsDigit(s[i])
  {
    if n < 10 then [Digit(n)] else NatToString(n / 10) + [Digit(n % 10)]
  }

  /** The value of a string of decimal digits. */
  function DecimalValue(s: string): nat
    requires forall i :: 0 <= i < |s| ==> IsDigit(s[i])
  {
    if |s| == 0 then 0
    else 10 * DecimalValue(s[..|s| - 1]) + DigitValue(s[|s| - 1])
  }

  /** Reading back what NatToString writes gives the number. */
  lemma {:induction false} NatToStringRoundTrip(n: nat)
    ensures DecimalValue(NatToString(n)) == n
  {
    if n >= 10 {
      NatToStringRoundTrip(n / 10);
      var s := NatToString(n / 10) + [Digit(n % 10)];
      assert s[..|s| - 1] == NatToString(n / 10);
    }
  }
}
