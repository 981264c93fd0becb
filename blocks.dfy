/**
 * The block scan of Parse (wikidown.go:63-198): the text is split into lines
 * and every line is rewritten in place, one after the other. Three kinds of
 * list are tracked: `%` unordered, `#` ordered and `;`/`:` description lists.
 * Each has a flag that says whether a run of its lines is open and a counter
 * of the lines in that run. A run is closed by appending the closing tag to
 * the line before the first line that does not continue it. Image lines are
 * rebuilt into figures.
 *
 * BlockScan is the loop itself. Blocks states, line by line, what the loop
 * leaves in the array.
 */
module Blocks {
  import opened Wrappers
  import opened Text
  import opened Images

  predicate IsUl(l: string) { StartsWith(l, "%") }
  predicate IsOl(l: string) { StartsWith(l, "#") }
  predicate IsDt(l: string) { StartsWith(l, ";") }
  predicate IsDd(l: string) { StartsWith(l, ":") }

  /** `^;([^:]*):(.*)+` matches: a term line that holds its definition after a colon. */
  predicate SingleDl(l: string) { IsDt(l) && ':' in l[1..] }

  /** A term line without a colon opens a description run. */
  predicate OpensDl(l: string) { IsDt(l) && !SingleDl(l) }

  /** `<li>$1</li>` and friends: the line without its marker, wrapped in `pre` and `post`. */
  function Wrap(l: string, pre: string, post: string): string
    requires |l| > 0
  {
    pre + l[1..] + post
  }

  /**
   * `^;([^:]*):(.*)+` to `<dl><dt>$1</dt><dd>$2</dd></dl>`: the term runs to
   * the first colon and the definition is everything after it.
   */
  function DlSingle(l: string): string
    requires SingleDl(l)
  {
    var t := l[1..];
    CharContained(t, ':');
    var c := IndexOf(t, ":").value;
    "<dl><dt>" + t[..c] + "</dt><dd>" + t[c + 1..] + "</dd></dl>"
  }

  /** Every image line of the text can be rebuilt. */
  predicate ImagesOk(ls: seq<string>)
  {
    forall k :: 0 <= k < |ls| ==> ImageOk(ls[k])
  }

  // ---------------------------------------------------------------------------
  // What the loop leaves behind, line by line

  /** Before line `n`, a run of lines starting with `m` is open: line `n - 1` starts with `m`. */
  predicate RunOpen(ls: seq<string>, n: nat, m: string)
    requires n <= |ls|
  {
    n > 0 && StartsWith(ls[n - 1], m)
  }

  /** Before line `n`, a description run is open. */
  predicate DlOpen(ls: seq<string>, n: nat)
    requires n <= |ls|
  {
    n > 0 &&
    (OpensDl(ls[n - 1]) || (DlOpen(ls, n - 1) && (SingleDl(ls[n - 1]) || IsDd(ls[n - 1]))))
  }

  /** Line `k` opens a run of `m` lines: it gets the opening tag. */
  predicate RunOpener(ls: seq<string>, k: nat, m: string)
    requires k < |ls|
  {
    StartsWith(ls[k], m) && !RunOpen(ls, k, m)
  }

  /** Line `k` ends a run of `m` lines: it gets the closing tag. */
  predicate RunCloser(ls: seq<string>, k: nat, m: string)
    requires k < |ls|
  {
    StartsWith(ls[k], m) && (k + 1 == |ls| || !StartsWith(ls[k + 1], m))
  }

  /** Line `k` opens a description run. */
  predicate DlOpener(ls: seq<string>, k: nat)
    requires k < |ls|
  {
    OpensDl(ls[k]) && !DlOpen(ls, k)
  }

  /**
   * Line `k` ends a description run: the next line neither starts a term nor
   * a definition. A run still open after the last line is never closed.
   */
  predicate DlCloser(ls: seq<string>, k: nat)
    requires k < |ls|
  {
    k + 1 < |ls| && DlOpen(ls, k + 1) && !IsDt(ls[k + 1]) && !IsDd(ls[k + 1])
  }

  /**
   * What line `k` becomes, before any closing tag. The list rewrites start
   * from the original line, so a list line that also holds an image loses
   * the figure.
   */
  function Body(ls: seq<string>, fs: Files, k: nat): string
    requires k < |ls| && ImagesOk(ls)
  {
    var v := ls[k];
    if IsUl(v) then (if RunOpener(ls, k, "%") then "<ul>" else "") + Wrap(v, "<li>", "</li>")
    else if IsOl(v) then (if RunOpener(ls, k, "#") then "<ol>" else "") + Wrap(v, "<li>", "</li>")
    else if SingleDl(v) then DlSingle(v)
    else if IsDt(v) then (if DlOpener(ls, k) then "<dl>" else "") + Wrap(v, "<dt>", "</dt>")
    else if IsDd(v) && DlOpen(ls, k) then Wrap(v, "<dd>", "</dd>")
    else if IsImage(v) then ImageLine(v, DiskAt(ls, fs, k))
    else v
  }

  /**
   * The disk as line `k` is read: the rebuild of wikidown.go:86-129 has run
   * for every image line before it, also for a list line whose figure the
   * list rewrite then dropped. The originals never change.
   */
  function DiskAt(ls: seq<string>, fs: Files, k: nat): (r: Files)
    requires k <= |ls| && ImagesOk(ls)
    ensures r.originals == fs.originals
    decreases k
  {
    if k == 0 then fs
    else if IsImage(ls[k - 1]) then Rebuilt(ls[k - 1], DiskAt(ls, fs, k - 1))
    else DiskAt(ls, fs, k - 1)
  }

  /** A thumbnail written for line `j` is still on disk when any later line is read. */
  lemma {:induction false} ThumbnailPersists(ls: seq<string>, fs: Files, j: nat, k: nat)
    requires ImagesOk(ls) && j < k <= |ls| && IsImage(ls[j]) && ImageOk(ls[j])
    requires ImageName(ls[j]) in fs.originals && fs.originals[ImageName(ls[j])].width > 220
    ensures ThumbFile(ImageName(ls[j])) in DiskAt(ls, fs, k).thumbnails
    decreases k
  {
    if k > j + 1 {
      ThumbnailPersists(ls, fs, j, k - 1);
    }
  }

  /**
   * A later image line whose name has the same stem finds that thumbnail, so
   * its figure shows `220px-` and the size of its own original, however
   * narrow that original is.
   */
  lemma {:induction false} ThumbnailSeenLater(ls: seq<string>, fs: Files, j: nat, k: nat)
    requires ImagesOk(ls) && j < k < |ls| && IsImage(ls[j]) && ImageOk(ls[j]) && IsImage(ls[k]) && ImageOk(ls[k])
    requires ImageName(ls[j]) in fs.originals && fs.originals[ImageName(ls[j])].width > 220
    requires ImageName(ls[k]) in fs.originals && Stem(ImageName(ls[k])) == Stem(ImageName(ls[j]))
    ensures HasThumbnail(ImageName(ls[k]), DiskAt(ls, fs, k))
  {
    ThumbnailPersists(ls, fs, j, k);
  }

  /** The closing tags appended to line `k`, in the order the loop appends them. */
  function Closers(ls: seq<string>, k: nat): string
    requires k < |ls|
  {
    (if RunCloser(ls, k, "%") then "</ul>" else "") +
    (if RunCloser(ls, k, "#") then "</ol>" else "") +
    (if DlCloser(ls, k) then "</dl>" else "")
  }

  /** The lines the block scan produces. */
  function Blocks(ls: seq<string>, fs: Files): (r: seq<string>)
    requires ImagesOk(ls)
    ensures |r| == |ls|
  {
    seq(|ls|, k requires 0 <= k < |ls| => Body(ls, fs, k) + Closers(ls, k))
  }

  // ---------------------------------------------------------------------------
  // The loop

  /**
   * The array after `i` lines of the loop: the lines before `i - 1` are done,
   * line `i - 1` has its body but may still get closing tags, and the lines
   * from `i` on are untouched.
   */
  ghost function Partial(ls: seq<string>, fs: Files, i: nat): (r: seq<string>)
    requires i <= |ls| && ImagesOk(ls)
    ensures |r| == |ls|
  {
    seq(|ls|, k requires 0 <= k < |ls| =>
      if k + 1 < i then Body(ls, fs, k) + Closers(ls, k)
      else if k + 1 == i then Body(ls, fs, k)
      else ls[k])
  }

  /** The tags line `i - 1` gets once line `i` is read, in terms of the state before line `i`. */
  lemma {:induction false} ClosersBefore(ls: seq<string>, i: nat)
    requires 0 < i < |ls|
    ensures Closers(ls, i - 1) ==
      (if RunOpen(ls, i, "%") && !IsUl(ls[i]) then "</ul>" else "") +
      (if RunOpen(ls, i, "#") && !IsOl(ls[i]) then "</ol>" else "") +
      (if DlOpen(ls, i) && !IsDt(ls[i]) && !IsDd(ls[i]) then "</dl>" else "")
  {
  }

  /** The tags the last line gets: only unordered and ordered runs are closed at the end. */
  lemma {:induction false} ClosersLast(ls: seq<string>)
    requires |ls| > 0
    ensures Closers(ls, |ls| - 1) ==
      (if RunOpen(ls, |ls|, "%") then "</ul>" else "") +
      (if RunOpen(ls, |ls|, "#") then "</ol>" else "")
  {
  }

  /** Storing line `i` and the tags of line `i - 1` moves the loop on by one line. */
  lemma {:induction false} PartialStep(ls: seq<string>, fs: Files, i: nat)
    requires i < |ls| && ImagesOk(ls)
    ensures i == 0 ==> Partial(ls, fs, i)[i := Body(ls, fs, i)] == Partial(ls, fs, i + 1)
    ensures i > 0 ==>
      Partial(ls, fs, i)[i := Body(ls, fs, i)][i - 1 := Partial(ls, fs, i)[i - 1] + Closers(ls, i - 1)] ==
      Partial(ls, fs, i + 1)
  {
  }

  /** Once every line is read, only the last line still lacks its tags. */
  lemma {:induction false} PartialDone(ls: seq<string>, fs: Files)
    requires |ls| > 0 && ImagesOk(ls)
    ensures Partial(ls, fs, |ls|)[|ls| - 1 := Body(ls, fs, |ls| - 1) + Closers(ls, |ls| - 1)] ==
      Blocks(ls, fs)
  {
  }

  /**
   * One pass of the loop body of wikidown.go:85-189 on line `i`, whose text
   * is `v`: the line is rewritten and the three flags and counters move on
   * to the state after line `i`. The result `closing` holds the tags that the
   * source appends to line `i - 1`.
   */
  method ScanLine(ghost ls: seq<string>, ghost fs: Files, ghost i: nat, v: string, disk: Files,
                  countUl: nat, inUl: bool, countOl: nat, inOl: bool, countDl: nat, inDl: bool)
    returns (line: string, closing: string, disk': Files,
             countUl': nat, inUl': bool, countOl': nat, inOl': bool, countDl': nat, inDl': bool)
    requires i < |ls| && v == ls[i] && ImagesOk(ls) && disk == DiskAt(ls, fs, i)
    requires inUl == RunOpen(ls, i, "%") && (countUl == 0 <==> !inUl)
    requires inOl == RunOpen(ls, i, "#") && (countOl == 0 <==> !inOl)
    requires inDl == DlOpen(ls, i) && (countDl == 0 <==> !inDl)
    ensures line == Body(ls, fs, i) && disk' == DiskAt(ls, fs, i + 1)
    ensures closing == if i > 0 then Closers(ls, i - 1) else ""
    ensures inUl' == RunOpen(ls, i + 1, "%") && (countUl' == 0 <==> !inUl')
    ensures inOl' == RunOpen(ls, i + 1, "#") && (countOl' == 0 <==> !inOl')
    ensures inDl' == DlOpen(ls, i + 1) && (countDl' == 0 <==> !inDl')
  {
    line, disk' := v, disk;
    if IsImage(v) {
      line := ImageLine(v, disk);
      disk' := Rebuilt(v, disk);
    }
    ghost var plain := line;
    var closeUl, closeOl, closeDl;
    line, closeUl, countUl', inUl' := ScanRun(ls, i, v, line, countUl, inUl, "%", "<ul>", "</ul>");
    ghost var afterUl := line;
    line, closeOl, countOl', inOl' := ScanRun(ls, i, v, line, countOl, inOl, "#", "<ol>", "</ol>");
    ghost var afterOl := line;
    line, closeDl, countDl', inDl' := ScanDescription(ls, i, v, line, countDl, inDl);
    closing := closeUl + closeOl + closeDl;
    if i > 0 {
      ClosersBefore(ls, i);
    }
    BodyOfScan(ls, fs, i, plain, afterUl, afterOl, line);
  }

  /**
   * The unordered (`m` is `%`) or ordered (`m` is `#`) list step of the loop
   * (wikidown.go:136-148 and 150-163): a line starting with `m` becomes a list
   * item, opening the list when it is the first of its run; any other line
   * closes an open run on the line before.
   */
  method ScanRun(ghost ls: seq<string>, ghost i: nat, v: string, line: string, count: nat, open: bool,
                 m: string, openTag: string, closeTag: string)
    returns (line': string, closing: string, count': nat, open': bool)
    requires i < |ls| && v == ls[i] && |m| == 1
    requires open == RunOpen(ls, i, m) && (count == 0 <==> !open)
    ensures line' == if StartsWith(v, m) then (if RunOpener(ls, i, m) then openTag else "") + Wrap(v, "<li>", "</li>") else line
    ensures closing == if RunOpen(ls, i, m) && !StartsWith(v, m) then closeTag else ""
    ensures open' == RunOpen(ls, i + 1, m) && (count' == 0 <==> !open')
  {
    line', closing, count', open' := line, "", count, open;
    if StartsWith(v, m) {
      line' := Wrap(v, "<li>", "</li>");
      if count == 0 {
        line' := openTag + line';
      }
      open' := true;
      count' := count + 1;
    } else if open {
      closing := closeTag;
      open' := false;
      count' := 0;
    }
  }

  /**
   * The description list step of the loop (wikidown.go:165-187): a term line
   * holding a colon becomes a whole list; one without opens or continues a
   * run; a definition line continues an open run; any other line closes an
   * open run on the line before.
   */
  method ScanDescription(ghost ls: seq<string>, ghost i: nat, v: string, line: string, count: nat, open: bool)
    returns (line': string, closing: string, count': nat, open': bool)
    requires i < |ls| && v == ls[i]
    requires open == DlOpen(ls, i) && (count == 0 <==> !open)
    ensures line' ==
      if SingleDl(v) then DlSingle(v)
      else if IsDt(v) then (if DlOpener(ls, i) then "<dl>" else "") + Wrap(v, "<dt>", "</dt>")
      else if IsDd(v) && DlOpen(ls, i) then Wrap(v, "<dd>", "</dd>")
      else line
    ensures closing == if DlOpen(ls, i) && !IsDt(v) && !IsDd(v) then "</dl>" else ""
    ensures open' == DlOpen(ls, i + 1) && (count' == 0 <==> !open')
  {
    line', closing, count', open' := line, "", count, open;
    if IsDt(v) {
      if SingleDl(v) {
        line' := DlSingle(v);
      } else {
        line' := Wrap(v, "<dt>", "</dt>");
        if count == 0 {
          line' := "<dl>" + line';
        }
        open' := true;
        count' := count + 1;
      }
    } else if open && IsDd(v) {
      line' := Wrap(v, "<dd>", "</dd>");
    } else if open {
      closing := "</dl>";
      open' := false;
      count' := 0;
    }
  }

  /** The three steps in sequence leave the body of line `i`: at most one of them rewrites it. */
  lemma {:induction false} BodyOfScan(ls: seq<string>, fs: Files, i: nat, plain: string, afterUl: string, afterOl: string, line: string)
    requires i < |ls| && ImagesOk(ls)
    requires plain == if IsImage(ls[i]) then ImageLine(ls[i], DiskAt(ls, fs, i)) else ls[i]
    requires afterUl == if IsUl(ls[i]) then (if RunOpener(ls, i, "%") then "<ul>" else "") + Wrap(ls[i], "<li>", "</li>") else plain
    requires afterOl == if IsOl(ls[i]) then (if RunOpener(ls, i, "#") then "<ol>" else "") + Wrap(ls[i], "<li>", "</li>") else afterUl
    requires line ==
      if SingleDl(ls[i]) then DlSingle(ls[i])
      else if IsDt(ls[i]) then (if DlOpener(ls, i) then "<dl>" else "") + Wrap(ls[i], "<dt>", "</dt>")
      else if IsDd(ls[i]) && DlOpen(ls, i) then Wrap(ls[i], "<dd>", "</dd>")
      else afterOl
    ensures line == Body(ls, fs, i)
  {
    var v := ls[i];
    OneMarker(v, "%", "#");
    OneMarker(v, "%", ";");
    OneMarker(v, "%", ":");
    OneMarker(v, "#", ";");
    OneMarker(v, "#", ":");
  }

  /**
   * The line loop of wikidown.go:84-198 over the array of lines, with its
   * three flags and three counters. The source writes line `i` and appends
   * to line `i - 1` as it goes; each iteration here computes the new line and
   * the tags for the line before (ScanLine), and then stores both.
   */
  method BlockScan(a: array<string>, fs: Files)
    requires ImagesOk(a[..])
    modifies a
    ensures a[..] == Blocks(old(a[..]), fs)
  {
    ghost var ls := a[..];
    var countUl, inUl := 0, false;
    var countOl, inOl := 0, false;
    var countDl, inDl := 0, false;
    var disk := fs;
    var i := 0;
    while i < a.Length
      invariant 0 <= i <= a.Length
      invariant a[..] == Partial(ls, fs, i) && disk == DiskAt(ls, fs, i)
      invariant inUl == RunOpen(ls, i, "%") && (countUl == 0 <==> !inUl)
      invariant inOl == RunOpen(ls, i, "#") && (countOl == 0 <==> !inOl)
      invariant inDl == DlOpen(ls, i) && (countDl == 0 <==> !inDl)
    {
      disk, countUl, inUl, countOl, inOl, countDl, inDl :=
        StoreLine(a, fs, ls, i, disk, countUl, inUl, countOl, inOl, countDl, inDl);
      i := i + 1;
    }
    CloseRuns(a, fs, ls, inUl, inOl);
  }

  /** One iteration of the line loop: line `i` is rewritten and line `i - 1` gets its closing tags. */
  method StoreLine(a: array<string>, ghost fs: Files, ghost ls: seq<string>, i: nat, disk: Files,
                   countUl: nat, inUl: bool, countOl: nat, inOl: bool, countDl: nat, inDl: bool)
    returns (disk': Files, countUl': nat, inUl': bool, countOl': nat, inOl': bool, countDl': nat, inDl': bool)
    requires |ls| == a.Length && i < a.Length && ImagesOk(ls) && a[..] == Partial(ls, fs, i)
    requires disk == DiskAt(ls, fs, i)
    requires inUl == RunOpen(ls, i, "%") && (countUl == 0 <==> !inUl)
    requires inOl == RunOpen(ls, i, "#") && (countOl == 0 <==> !inOl)
    requires inDl == DlOpen(ls, i) && (countDl == 0 <==> !inDl)
    modifies a
    ensures a[..] == Partial(ls, fs, i + 1) && disk' == DiskAt(ls, fs, i + 1)
    ensures inUl' == RunOpen(ls, i + 1, "%") && (countUl' == 0 <==> !inUl')
    ensures inOl' == RunOpen(ls, i + 1, "#") && (countOl' == 0 <==> !inOl')
    ensures inDl' == DlOpen(ls, i + 1) && (countDl' == 0 <==> !inDl')
  {
    var line, closing;
    line, closing, disk', countUl', inUl', countOl', inOl', countDl', inDl' :=
      ScanLine(ls, fs, i, a[i], disk, countUl, inUl, countOl, inOl, countDl, inDl);
    PartialStep(ls, fs, i);
    ghost var before := a[..];
    a[i] := line;
    assert a[..] == before[i := line];
    if i > 0 {
      a[i - 1] := a[i - 1] + closing;
      assert a[..] == before[i := line][i - 1 := before[i - 1] + closing];
    }
  }

  /**
   * The tags appended after the loop (wikidown.go:193-198): an unordered or
   * ordered run still open is closed on the last line; an open description
   * list is not.
   */
  method CloseRuns(a: array<string>, fs: Files, ghost ls: seq<string>, inUl: bool, inOl: bool)
    requires |ls| == a.Length && ImagesOk(ls) && a[..] == Partial(ls, fs, a.Length)
    requires inUl == RunOpen(ls, a.Length, "%") && inOl == RunOpen(ls, a.Length, "#")
    modifies a
    ensures a[..] == Blocks(ls, fs)
  {
    var closing := "";
    if inUl {
      closing := closing + "</ul>";
    }
    if inOl {
      closing := closing + "</ol>";
    }
    if a.Length > 0 {
      ClosersLast(ls);
      PartialDone(ls, fs);
      assert closing == Closers(ls, a.Length - 1);
      if closing != "" {
        a[a.Length - 1] := a[a.Length - 1] + closing;
      } else {
        assert a[a.Length - 1] + closing == a[a.Length - 1];
      }
    }
  }

  // ---------------------------------------------------------------------------
  // At most one run is open

  /** A line starts with at most one marker. */
  lemma {:induction false} OneMarker(l: string, p: string, q: string)
    requires |p| == 1 && |q| == 1 && p != q
    ensures !(StartsWith(l, p) && StartsWith(l, q))
  {
  }

  /**
   * Before line `n`, a description run is open only right after a `;` or `:`
   * line, and so at most one of the three kinds of run is open.
   */
  lemma {:induction false} AtMostOneRun(ls: seq<string>, n: nat)
    requires n <= |ls|
    ensures DlOpen(ls, n) ==> IsDt(ls[n - 1]) || IsDd(ls[n - 1])
    ensures !(RunOpen(ls, n, "%") && RunOpen(ls, n, "#"))
    ensures !(DlOpen(ls, n) && RunOpen(ls, n, "%"))
    ensures !(DlOpen(ls, n) && RunOpen(ls, n, "#"))
  {
    if n > 0 {
      var l := ls[n - 1];
      OneMarker(l, "%", "#");
      OneMarker(l, "%", ";");
      OneMarker(l, "%", ":");
      OneMarker(l, "#", ";");
      OneMarker(l, "#", ":");
    }
  }

  // ---------------------------------------------------------------------------
  // Runs open and close in pairs

  /** The number of lines before `n` that open a run of `m` lines. */
  function Opened(ls: seq<string>, n: nat, m: string): nat
    requires n <= |ls|
  {
    if n == 0 then 0 else Opened(ls, n - 1, m) + (if RunOpener(ls, n - 1, m) then 1 else 0)
  }

  /** The number of lines before `n` that close a run of `m` lines. */
  function Closed(ls: seq<string>, n: nat, m: string): nat
    requires n <= |ls|
  {
    if n == 0 then 0 else Closed(ls, n - 1, m) + (if RunCloser(ls, n - 1, m) then 1 else 0)
  }

  /**
   * After `n` lines, every run of `m` lines that was opened has been closed,
   * except the one still open whose last line is not yet known.
   */
  lemma {:induction false} RunCount(ls: seq<string>, n: nat, m: string)
    requires n <= |ls|
    ensures Opened(ls, n, m) ==
      Closed(ls, n, m) + (if RunOpen(ls, n, m) && !RunCloser(ls, n - 1, m) then 1 else 0)
  {
    if n > 0 {
      RunCount(ls, n - 1, m);
    }
  }

  /** Every `<ul>` or `<ol>` the scan opens gets its closing tag, the last one at the end of the text. */
  lemma {:induction false} RunsBalanced(ls: seq<string>, m: string)
    ensures Opened(ls, |ls|, m) == Closed(ls, |ls|, m)
  {
    RunCount(ls, |ls|, m);
  }

  /**
   * A run that starts at line `k` ends at some line `j`, and every line from
   * `k` to `j` is an item of that run.
   */
  lemma {:induction false} RunEnds(ls: seq<string>, k: nat, m: string)
    requires k < |ls| && StartsWith(ls[k], m)
    ensures exists j :: (k <= j < |ls| && RunCloser(ls, j, m) &&
      forall i :: k <= i <= j ==> StartsWith(ls[i], m))
    decreases |ls| - k
  {
    if !RunCloser(ls, k, m) {
      RunEnds(ls, k + 1, m);
      var j :| k + 1 <= j < |ls| && RunCloser(ls, j, m) &&
        forall i :: k + 1 <= i <= j ==> StartsWith(ls[i], m);
      assert forall i :: k <= i <= j ==> StartsWith(ls[i], m);
    } else {
      assert forall i :: k <= i <= k ==> StartsWith(ls[i], m);
    }
  }

  /** The number of lines before `n` that open a description run. */
  function DlOpened(ls: seq<string>, n: nat): nat
    requires n <= |ls|
  {
    if n == 0 then 0 else DlOpened(ls, n - 1) + (if DlOpener(ls, n - 1) then 1 else 0)
  }

  /** The number of lines before `n` that close a description run. */
  function DlClosed(ls: seq<string>, n: nat): nat
    requires n <= |ls|
  {
    if n == 0 then 0 else DlClosed(ls, n - 1) + (if DlCloser(ls, n - 1) then 1 else 0)
  }

  /**
   * After `n` lines, every description run that was opened has been closed,
   * except the one still open whose last line is not yet known.
   */
  lemma {:induction false} DlCount(ls: seq<string>, n: nat)
    requires n <= |ls|
    ensures DlOpened(ls, n) ==
      DlClosed(ls, n) + (if DlOpen(ls, n) && !DlCloser(ls, n - 1) then 1 else 0)
  {
    if n > 0 {
      DlCount(ls, n - 1);
    }
  }

  /**
   * Every description run gets its `</dl>` except one still open after the
   * last line: unlike the two kinds of list, the source does not close it.
   */
  lemma {:induction false} DlBalanced(ls: seq<string>)
    ensures DlOpened(ls, |ls|) == DlClosed(ls, |ls|) + (if DlOpen(ls, |ls|) then 1 else 0)
  {
    DlCount(ls, |ls|);
  }

  /** A one-line list is opened and closed on its own line. */
  lemma {:induction false} OneItemList(x: string, fs: Files)
    requires ImagesOk(["%" + x])
    ensures Blocks(["%" + x], fs) == ["<ul><li>" + x + "</li></ul>"]
  {
    var ls := ["%" + x];
    assert IsUl(ls[0]) && RunOpener(ls, 0, "%") && RunCloser(ls, 0, "%");
    assert !StartsWith(ls[0], "#") && !IsDt(ls[0]);
    assert ls[0][1..] == x;
    assert Body(ls, fs, 0) == "<ul>" + ("<li>" + x + "</li>");
    assert Closers(ls, 0) == "</ul>";
    assert Blocks(ls, fs)[0] == Body(ls, fs, 0) + Closers(ls, 0);
    assert "<ul>" + ("<li>" + x + "</li>") + "</ul>" == "<ul><li>" + x + "</li></ul>";
  }

  /** A description run on the last line keeps its `<dl>` open. */
  lemma {:induction false} OpenDescriptionAtEnd(x: string, fs: Files)
    requires ':' !in x && ImagesOk([";" + x])
    ensures Blocks([";" + x], fs) == ["<dl><dt>" + x + "</dt>"]
  {
    var ls := [";" + x];
    assert ls[0][1..] == x;
    assert IsDt(ls[0]) && !SingleDl(ls[0]) && DlOpener(ls, 0) && !DlCloser(ls, 0);
    assert !IsUl(ls[0]) && !IsOl(ls[0]);
    assert !RunCloser(ls, 0, "%") && !RunCloser(ls, 0, "#");
    assert Body(ls, fs, 0) == "<dl>" + ("<dt>" + x + "</dt>");
    assert Closers(ls, 0) == "";
    assert Blocks(ls, fs)[0] == Body(ls, fs, 0) + Closers(ls, 0);
    assert "<dl>" + ("<dt>" + x + "</dt>") + "" == "<dl><dt>" + x + "</dt>";
  }
}
