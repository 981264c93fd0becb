/**
 * Emoticons (wikidown.go:320-370): a fixed table of shortcodes, each replaced
 * everywhere by an image tag, one after the other in table order; the last
 * two entries turn escaped paragraph tags back into tags.
 *
 * The table is built so that applying it twice changes nothing: no token
 * holds `<` or `>`, every replacement starts with `<` and ends with `>`, and
 * every token holds one of the characters `:`, `;`, `)`, `X`, `_`, `&`, none
 * of which appears in any replacement.
 */
module Emoticons {
  import opened Text

  /** A character that no replacement holds. */
  predicate IsMark(c: char)
  {
    c == ':' || c == ';' || c == ')' || c == 'X' || c == '_' || c == '&'
  }

  /** No mark occurs in `s`. */
  predicate MarkFree(s: string)
  {
    ':' !in s && ';' !in s && ')' !in s && 'X' !in s && '_' !in s && '&' !in s
  }

  /** A token: free of `<` and `>`, and holding a mark. */
  predicate IsToken(t: string)
  {
    |t| > 0 && '<' !in t && '>' !in t &&
    (':' in t || ';' in t || ')' in t || 'X' in t || '_' in t || '&' in t)
  }

  /** A replacement: an HTML fragment from `<` to `>`, free of marks. */
  predicate IsReplacement(r: string)
  {
    |r| > 0 && r[0] == '<' && r[|r| - 1] == '>' && MarkFree(r)
  }

  /** An image name: lower-case letters. */
  predicate IsName(n: string)
  {
    forall i :: 0 <= i < |n| ==> 'a' <= n[i] <= 'z'
  }

  type Token = t: string | IsToken(t) witness ":)"
  type Replacement = r: string | IsReplacement(r) witness "<>"
  type Name = n: string | IsName(n) witness ""

  /**
   * One literal substitution: every `token` becomes the image named `name`,
   * or the HTML fragment `tag`.
   */
  datatype Rule =
    | Smiley(token: Token, name: Name)
    | Unescape(token: Token, tag: Replacement)

  const ImagePath := "<img src=/img/emoticons/"

  /** The image tag for `name.gif`. */
  function Icon(name: Name): Replacement
  {
    var r := ImagePath + name + ".gif>";
    assert r[0] == ImagePath[0] && r[|r| - 1] == '>';
    ImagePathMarkFree();
    NameMarkFree(name);
    assert MarkFree(".gif>");
    r
  }

  lemma {:induction false} ImagePathMarkFree()
    ensures MarkFree(ImagePath)
  {
    forall i | 0 <= i < |ImagePath| ensures !IsMark(ImagePath[i]) {
      assert ImagePath[i] in "<img src=/emoticons";
    }
  }

  lemma {:induction false} NameMarkFree(n: Name)
    ensures MarkFree(n)
  {
    assert forall i :: 0 <= i < |n| ==> !IsMark(n[i]);
  }

  /** What a rule puts in place of its token. */
  function Substitute(rule: Rule): Replacement
  {
    match rule
    case Smiley(_, name) => Icon(name)
    case Unescape(_, tag) => tag
  }

  /**
   * The substitutions of wikidown.go:323-367, in order. The table is written
   * in parts of a few rows, which keeps each part cheap to check.
   */
  const Table: seq<Rule> :=
    Rows1 + (Rows2 + (Rows3 + (Rows4 + (Rows5 + (Rows6 + (Rows7 + (Rows8 + (Rows9 + Unescapes))))))))

  const Rows1: seq<Rule> := [
    Smiley(":angry:", "angry"),
    Smiley(":laugh:", "laugh"),
    Smiley(":DD", "laugh"),
    Smiley(":yell:", "yell"),
    Smiley(":innocent:", "innocent")
  ]

  const Rows2: seq<Rule> := [
    Smiley("O:)", "innocent"),
    Smiley(":satisfied:", "satisfied"),
    Smiley("/:D", "satisfied"),
    Smiley(":)", "smile"),
    Smiley(":O", "shocked")
  ]

  const Rows3: seq<Rule> := [
    Smiley(":(", "sad"),
    Smiley(":D", "biggrin"),
    Smiley(":P", "tongue"),
    Smiley(";)", "wink"),
    Smiley(":blush:", "blush")
  ]

  const Rows4: seq<Rule> := [
    Smiley(":\\", "blush"),
    Smiley(":confused:", "confused"),
    Smiley(":S", "confused"),
    Smiley(":cool:", "cool"),
    Smiley("B)", "cool")
  ]

  const Rows5: seq<Rule> := [
    Smiley(":crazy:", "crazy"),
    Smiley(":cry:", "cry"),
    Smiley(":~(", "cry"),
    Smiley(":doze", "doze"),
    Smiley(":?", "doze")
  ]

  const Rows6: seq<Rule> := [
    Smiley(":hehe:", "hehe"),
    Smiley("XD", "hehe"),
    Smiley(":plain:", "plain"),
    Smiley(":|", "plain"),
    Smiley(":rolleyes:", "rolleyes")
  ]

  const Rows7: seq<Rule> := [
    Smiley("9_9", "rolleyes"),
    Smiley(":dizzy:", "crazy"),
    Smiley("o_O", "crazy"),
    Smiley(":money:", "money"),
    Smiley(":$", "money")
  ]

  const Rows8: seq<Rule> := [
    Smiley(":sealed:", "sealed"),
    Smiley(":X", "sealed"),
    Smiley(":eek:", "eek"),
    Smiley("O_O", "eek"),
    Smiley(":kiss:", "kiss")
  ]

  const Rows9: seq<Rule> := [
    Smiley(":*", "kiss")
  ]

  /** `&lt;/p&gt;` and `&lt;p&gt;` become `</p>` and `<p>` again. */
  const Unescapes: seq<Rule> := [
    Unescape("&lt;/p&gt;", "</p>"),
    Unescape("&lt;p&gt;", "<p>")
  ]

  // ---------------------------------------------------------------------------
  // Applying a table

  /** The rules applied one after the other, each to the whole text. */
  function Apply(s: string, rules: seq<Rule>): string
    decreases |rules|
  {
    if |rules| == 0 then s
    else Apply(Replace(s, rules[0].token, Substitute(rules[0])), rules[1..])
  }

  /** Emoticons: the table applied to the text. */
  function Emoticons(s: string): string
  {
    Apply(s, Table)
  }

  // ---------------------------------------------------------------------------
  // Why no token survives

  /**
   * A good replacement neither holds a good token nor can form one with the
   * text around it.
   */
  lemma {:induction false} ReplacementFree(r: Replacement, t: Token)
    ensures r[0] !in t && r[|r| - 1] !in t && !Contains(r, t)
  {
    var k :| 0 <= k < |t| && IsMark(t[k]);
    MissingCharAbsent(r, t, k);
  }

  /** Good replacements never bring in a good token the text did not hold. */
  lemma {:induction false} ApplyKeepsAbsent(s: string, rules: seq<Rule>, u: Token)
    requires !Contains(s, u)
    ensures !Contains(Apply(s, rules), u)
    decreases |rules|
  {
    if |rules| > 0 {
      var r := rules[0];
      ReplacementFree(Substitute(r), u);
      ReplaceLeavesNoNew(s, r.token, Substitute(r), u);
      ApplyKeepsAbsent(Replace(s, r.token, Substitute(r)), rules[1..], u);
    }
  }

  /** After a table of good rules has been applied, none of its tokens is left. */
  lemma {:induction false} ApplyClears(s: string, rules: seq<Rule>)
    ensures forall i :: 0 <= i < |rules| ==> !Contains(Apply(s, rules), rules[i].token)
    decreases |rules|
  {
    if |rules| > 0 {
      var r := rules[0];
      var s' := Replace(s, r.token, Substitute(r));
      ReplacementFree(Substitute(r), r.token);
      ReplaceLeavesNoNew(s, r.token, Substitute(r), r.token);
      ApplyKeepsAbsent(s', rules[1..], r.token);
      ApplyClears(s', rules[1..]);
      forall i | 1 <= i < |rules| ensures !Contains(Apply(s, rules), rules[i].token) {
        assert rules[i] == rules[1..][i - 1];
      }
    }
  }

  /** A text holding none of the tokens goes through unchanged. */
  lemma {:induction false} ApplyIdentity(s: string, rules: seq<Rule>)
    requires forall i :: 0 <= i < |rules| ==> !Contains(s, rules[i].token)
    ensures Apply(s, rules) == s
    decreases |rules|
  {
    if |rules| > 0 {
      ReplaceAbsent(s, rules[0].token, Substitute(rules[0]));
      forall i | 0 <= i < |rules[1..]| ensures !Contains(s, rules[1..][i].token) {
        assert rules[1..][i] == rules[i + 1];
      }
      ApplyIdentity(s, rules[1..]);
    }
  }

  // ---------------------------------------------------------------------------
  // Properties of Emoticons

  /** No shortcode and no escaped paragraph tag is left in the result. */
  lemma {:induction false} NoTokenLeft(s: string)
    ensures forall i :: 0 <= i < |Table| ==> !Contains(Emoticons(s), Table[i].token)
  {
    ApplyClears(s, Table);
  }

  /** Applying Emoticons a second time changes nothing. */
  lemma {:induction false} Idempotent(s: string)
    ensures Emoticons(Emoticons(s)) == Emoticons(s)
  {
    NoTokenLeft(s);
    ApplyIdentity(Emoticons(s), Table);
  }

  /** A text without any of `:`, `;`, `)`, `X`, `_` and `&` is left as it is. */
  lemma {:induction false} PlainText(s: string)
    requires ':' !in s && ';' !in s && ')' !in s && 'X' !in s && '_' !in s && '&' !in s
    ensures Emoticons(s) == s
  {
    forall i | 0 <= i < |Table| ensures !Contains(s, Table[i].token) {
      var t := Table[i].token;
      var k :| 0 <= k < |t| && IsMark(t[k]);
      MissingCharAbsent(s, t, k);
    }
    ApplyIdentity(s, Table);
  }

  /** `strings.Replace` of a whole text by itself. */
  lemma {:induction false} ReplaceWhole(t: string, r: string)
    requires |t| > 0
    ensures Replace(t, t, r) == r
  {
    assert t[..|t|] == t && t[|t|..] == [];
  }

  /** Applying a table is applying its first `n` rules and then the rest. */
  lemma {:induction false} ApplySplit(s: string, rules: seq<Rule>, n: nat)
    requires n <= |rules|
    ensures Apply(s, rules) == Apply(Apply(s, rules[..n]), rules[n..])
    decreases n
  {
    if n > 0 {
      var s' := Replace(s, rules[0].token, Substitute(rules[0]));
      ApplySplit(s', rules[1..], n - 1);
      assert rules[1..][..n - 1] == rules[..n][1..];
      assert rules[1..][n - 1..] == rules[n..];
    } else {
      assert rules[n..] == rules;
    }
  }

  /** Applying `a + b` is applying `a` and then `b`. */
  lemma {:induction false} ApplyAppend(s: string, a: seq<Rule>, b: seq<Rule>)
    ensures Apply(s, a + b) == Apply(Apply(s, a), b)
    decreases |a|
  {
    if |a| > 0 {
      assert (a + b)[0] == a[0] && (a + b)[1..] == a[1..] + b;
      ApplyAppend(Replace(s, a[0].token, Substitute(a[0])), a[1..], b);
    } else {
      assert a + b == b;
    }
  }

  /** Once the text is a single image tag, no later rule changes it. */
  lemma {:induction false} ImageStays(r: Replacement, rules: seq<Rule>)
    ensures Apply(r, rules) == r
  {
    forall k | 0 <= k < |rules| ensures !Contains(r, rules[k].token) {
      ReplacementFree(r, rules[k].token);
    }
    ApplyIdentity(r, rules);
  }

  /** Emoticons of a text that the first three parts of the table turn into an image. */
  lemma {:induction false} FirstRowsGive(s: string, a: string, b: string, r: Replacement)
    requires Apply(s, Rows1) == a && Apply(a, Rows2) == b && Apply(b, Rows3) == r
    ensures Emoticons(s) == r
  {
    var later := Rows4 + (Rows5 + (Rows6 + (Rows7 + (Rows8 + (Rows9 + Unescapes)))));
    ApplyAppend(s, Rows1, Rows2 + (Rows3 + later));
    ApplyAppend(a, Rows2, Rows3 + later);
    ApplyAppend(b, Rows3, later);
    ImageStays(r, later);
  }

  /**
   * A token standing alone becomes its own image, provided no earlier token of
   * the rules occurs inside it.
   */
  lemma {:induction false} Alone(rules: seq<Rule>, i: nat)
    requires i < |rules|
    requires forall k :: 0 <= k < i ==> !Contains(rules[i].token, rules[k].token)
    ensures Apply(rules[i].token, rules) == Substitute(rules[i])
  {
    var t := rules[i].token;
    var r := Substitute(rules[i]);
    ApplySplit(t, rules, i);
    ApplyIdentity(t, rules[..i]);
    assert rules[i..][0] == rules[i] && rules[i..][1..] == rules[i + 1..];
    ReplaceWhole(t, r);
    ImageStays(r, rules[i + 1..]);
  }

  /** Every token standing alone becomes its own image, unless an earlier token occurs inside it. */
  lemma {:induction false} TokenAlone(i: nat)
    requires i < |Table|
    requires forall k :: 0 <= k < i ==> !Contains(Table[i].token, Table[k].token)
    ensures Emoticons(Table[i].token) == Substitute(Table[i])
  {
    Alone(Table, i);
  }

  /** A token holding a character the text lacks does not occur in it. */
  lemma {:induction false} Lacks(s: string, t: string, c: char)
    requires c in t && c !in s
    ensures !Contains(s, t)
  {
    var i :| 0 <= i < |t| && t[i] == c;
    MissingCharAbsent(s, t, i);
  }

  /** A token as long as the text, but different, does not occur in it. */
  lemma {:induction false} Differs(s: string, t: string)
    requires |s| == |t| && s != t
    ensures !Contains(s, t)
  {
    assert s[0..|t|] == s;
  }

  /** A rule whose token does not occur leaves the text as it is. */
  lemma {:induction false} SkipRule(s: string, rules: seq<Rule>)
    requires |rules| > 0 && !Contains(s, rules[0].token)
    ensures Apply(s, rules) == Apply(s, rules[1..])
  {
    ReplaceAbsent(s, rules[0].token, Substitute(rules[0]));
  }

  /** A text shorter than every token of the rules goes through unchanged. */
  lemma {:induction false} ShortText(s: string, rules: seq<Rule>)
    requires forall k :: 0 <= k < |rules| ==> |rules[k].token| > |s|
    ensures Apply(s, rules) == s
  {
    ApplyIdentity(s, rules);
  }

  /** The images of the rows that the lemmas below look at. */
  lemma {:induction false} RowImages()
    ensures Substitute(Rows1[1]) == Icon("laugh") && Substitute(Rows1[2]) == Icon("laugh")
    ensures Substitute(Rows2[0]) == Icon("innocent")
    ensures Substitute(Rows2[2]) == Icon("satisfied") && Substitute(Rows3[1]) == Icon("biggrin")
  {
  }

  /** `:laugh:` meets its own rule in the first part of the table. */
  lemma {:induction false} LaughStep()
    ensures Apply(":laugh:", Rows1) == Substitute(Rows1[1])
  {
    assert Rows1[1].token == ":laugh:";
    Lacks(":laugh:", ":angry:", 'n');
    Alone(Rows1, 1);
  }

  /** So does `:DD`. */
  lemma {:induction false} DoubleDStep()
    ensures Apply(":DD", Rows1) == Substitute(Rows1[2])
  {
    assert Rows1[2].token == ":DD";
    Alone(Rows1, 2);
  }

  /**
   * The two spellings of the laughing face give the same image: `:DD` is
   * replaced before `:D` could take its first two characters.
   */
  lemma {:induction false} LaughAliases()
    ensures Emoticons(":laugh:") == Icon("laugh") && Emoticons(":DD") == Icon("laugh")
  {
    LaughStep();
    DoubleDStep();
    RowImages();
    var r := Icon("laugh");
    ImageStays(r, Rows2);
    ImageStays(r, Rows3);
    FirstRowsGive(":laugh:", r, r, r);
    FirstRowsGive(":DD", r, r, r);
  }

  /** `:D` passes the first part of the table unchanged. */
  lemma {:induction false} GrinStep1()
    ensures Apply(":D", Rows1) == ":D"
  {
    ShortText(":D", Rows1);
  }

  /** And the second. */
  lemma {:induction false} GrinStep2()
    ensures Apply(":D", Rows2) == ":D"
  {
    assert Rows2[3].token == ":)" && Rows2[4].token == ":O";
    Lacks(":D", ":)", ')');
    Lacks(":D", ":O", 'O');
    ApplyIdentity(":D", Rows2);
  }

  /** The third part holds its rule. */
  lemma {:induction false} GrinStep3()
    ensures Apply(":D", Rows3) == Substitute(Rows3[1])
  {
    assert Rows3[1].token == ":D";
    Lacks(":D", ":(", '(');
    Alone(Rows3, 1);
  }

  /** `:D` on its own is the grinning face. */
  lemma {:induction false} GrinAlone()
    ensures Emoticons(":D") == Icon("biggrin")
  {
    GrinStep1();
    GrinStep2();
    GrinStep3();
    RowImages();
    FirstRowsGive(":D", ":D", ":D", Icon("biggrin"));
  }

  /** `O:)` passes the first part of the table unchanged. */
  lemma {:induction false} HaloStep1()
    ensures Apply("O:)", Rows1) == "O:)"
  {
    assert Rows1[2].token == ":DD";
    Lacks("O:)", ":DD", 'D');
    ApplyIdentity("O:)", Rows1);
  }

  /** And meets its own rule first in the second part, before `:)`. */
  lemma {:induction false} HaloStep2()
    ensures Apply("O:)", Rows2) == Substitute(Rows2[0])
  {
    assert Rows2[0].token == "O:)";
    Alone(Rows2, 0);
  }

  /** `O:)` is the innocent face: it is replaced before `:)` could take its last two characters. */
  lemma {:induction false} HaloFirst()
    ensures Emoticons("O:)") == Icon("innocent")
  {
    HaloStep1();
    HaloStep2();
    RowImages();
    var r := Icon("innocent");
    ImageStays(r, Rows3);
    FirstRowsGive("O:)", "O:)", r, r);
  }

  /** `/:D` passes the first part of the table unchanged. */
  lemma {:induction false} SatisfiedStep1()
    ensures Apply("/:D", Rows1) == "/:D"
  {
    assert Rows1[2].token == ":DD";
    Differs("/:D", ":DD");
    ApplyIdentity("/:D", Rows1);
  }

  /** And meets its own rule in the second part, before `:D`. */
  lemma {:induction false} SatisfiedStep2()
    ensures Apply("/:D", Rows2) == Substitute(Rows2[2])
  {
    assert Rows2[0].token == "O:)" && Rows2[2].token == "/:D";
    Lacks("/:D", "O:)", 'O');
    Alone(Rows2, 2);
  }

  /** `/:D` is replaced before `:D`. */
  lemma {:induction false} SatisfiedAlone()
    ensures Emoticons("/:D") == Icon("satisfied")
  {
    SatisfiedStep1();
    SatisfiedStep2();
    RowImages();
    var r := Icon("satisfied");
    ImageStays(r, Rows3);
    FirstRowsGive("/:D", "/:D", r, r);
  }

  /** The other way round, a shorter token would take part of a longer one. */
  lemma {:induction false} ShorterFirstWouldClobber()
    ensures Replace(":DD", ":D", Icon("biggrin")) == Icon("biggrin") + "D"
    ensures Replace("O:)", ":)", Icon("smile")) == "O" + Icon("smile")
  {
    ReplaceWhole(":D", Icon("biggrin"));
    ReplaceWhole(":)", Icon("smile"));
  }
}
