/**
 * The structural match `(.*\.swift):(\d+):\d+:\s*(.*)` applied with
 * String#match to one line of SwiftLint output.
 *
 * A regular-expression search tries start positions from left to right and,
 * at each one, lets the greedy `.*` of the file name take as much as it can.
 * The first success is therefore the match with the smallest start and, for
 * that start, the largest end of the file name. `MatchSpan` describes every
 * way the pattern can match; `LocateFile` computes the one the search picks
 * and is proved to be that leftmost-longest choice.
 */
module LineMatch {
  import opened Wrappers
  import opened Text

  /** The index just past the maximal run of ASCII digits that starts at `k`. */
  function DigitsEnd(s: string, k: nat): (e: nat)
    requires k <= |s|
    ensures k <= e <= |s|
    ensures forall j :: k <= j < e ==> IsDigit(s[j])
    ensures e < |s| ==> !IsDigit(s[e])
    decreases |s| - k
  {
    if k < |s| && IsDigit(s[k]) then DigitsEnd(s, k + 1) else k
  }

  /**
   * `\.swift:(\d+):\d+:` matches at index `e`: the part of the pattern that
   * follows the file name's `.*`. A `\d+` followed by `:` can only take a
   * maximal run of digits, so backtracking never changes the digit groups.
   */
  predicate TailAt(s: string, e: nat) {
    e + 7 <= |s| && s[e..e + 7] == ".swift:" && NumbersAt(s, e + 7)
  }

  /** `(\d+):\d+:` matches at index `k`. */
  predicate NumbersAt(s: string, k: nat)
    requires k <= |s|
  {
    && var d1 := DigitsEnd(s, k);
    && k < d1 < |s|
    && s[d1] == ':'
    && var d2 := DigitsEnd(s, d1 + 1);
    && d1 + 1 < d2 < |s|
    && s[d2] == ':'
  }

  lemma TailStartsWithDot(s: string, e: nat)
    requires TailAt(s, e)
    ensures e < |s| && s[e] == '.'
  {
    assert s[e..e + 7][0] == s[e];
  }

  /** No line feed in `s[i..j]`. */
  predicate NoNewlineBetween(s: string, i: nat, j: nat)
    requires i <= j <= |s|
  {
    forall k :: i <= k < j ==> s[k] != '\n'
  }

  /**
   * The pattern matches starting at `i` with the file name capture `s[i..e+6]`
   * (`.` does not match a line feed; `\s*(.*)` after the tail always matches).
   */
  predicate MatchSpan(s: string, i: nat, e: nat) {
    i <= e <= |s| && TailAt(s, e) && NoNewlineBetween(s, i, e)
  }

  /** The smallest `e >= k` at which the tail matches. */
  function FirstTail(s: string, k: nat): (r: Option<nat>)
    ensures r.Some? ==> k <= r.value && TailAt(s, r.value)
    ensures r.Some? ==> forall e :: k <= e < r.value ==> !TailAt(s, e)
    ensures r.None? ==> forall e :: k <= e ==> !TailAt(s, e)
    decreases |s| - k
  {
    if k + 7 > |s| then None
    else if TailAt(s, k) then Some(k)
    else FirstTail(s, k + 1)
  }

  /** The largest `e` in `[lo, hi)` at which the tail matches. */
  function LastTail(s: string, lo: nat, hi: nat): (r: Option<nat>)
    requires lo <= hi
    ensures r.Some? ==> lo <= r.value < hi && TailAt(s, r.value)
    ensures r.Some? ==> forall e :: r.value < e < hi ==> !TailAt(s, e)
    ensures r.None? ==> forall e :: lo <= e < hi ==> !TailAt(s, e)
    decreases hi - lo
  {
    if lo == hi then None
    else if TailAt(s, hi - 1) then Some(hi - 1)
    else LastTail(s, lo, hi - 1)
  }

  /** The start of the line-feed-free stretch that ends at `e`. */
  function StretchStart(s: string, e: nat): (r: nat)
    requires e <= |s|
    ensures r <= e && NoNewlineBetween(s, r, e)
    ensures r > 0 ==> s[r - 1] == '\n'
  {
    if e == 0 || s[e - 1] == '\n' then e else StretchStart(s, e - 1)
  }

  /** The first line feed at or after `k`, or the end of `s`. */
  function StretchEnd(s: string, k: nat): (r: nat)
    requires k <= |s|
    ensures k <= r <= |s| && NoNewlineBetween(s, k, r)
    ensures r < |s| ==> s[r] == '\n'
    decreases |s| - k
  {
    if k == |s| || s[k] == '\n' then k else StretchEnd(s, k + 1)
  }

  /** The first index at or after `k` that `\s*` does not consume, or the end of `s`. */
  function SkipSpace(s: string, k: nat): (r: nat)
    requires k <= |s|
    ensures k <= r <= |s|
    ensures forall j :: k <= j < r ==> IsRegexSpace(s[j])
    ensures r < |s| ==> !IsRegexSpace(s[r])
    decreases |s| - k
  {
    if k < |s| && IsRegexSpace(s[k]) then SkipSpace(s, k + 1) else k
  }

  /** Where a match starts and where its file name's `.swift` begins. */
  datatype Span = Span(start: nat, dot: nat)

  /** The match a left-to-right search with a greedy file name finds, if any. */
  function LocateFile(s: string): (r: Option<Span>)
    ensures r.None? <==> forall i: nat, e: nat :: !MatchSpan(s, i, e)
    ensures r.Some? ==> MatchSpan(s, r.value.start, r.value.dot)
    ensures r.Some? ==> forall i: nat, e: nat :: MatchSpan(s, i, e) ==>
      r.value.start < i || (r.value.start == i && e <= r.value.dot)
  {
    match FirstTail(s, 0)
    case None => None
    case Some(first) =>
      var start := StretchStart(s, first);
      var stop := StretchEnd(s, first);
      var last := LastTail(s, first, stop);
      LocateChoice(s, first, start, stop, last);
      Some(Span(start, last.value))
  }

  /**
   * The first tail fixes the leftmost start (the beginning of its line), and
   * the last tail before the next line feed is the longest file name from it.
   */
  lemma LocateChoice(s: string, first: nat, start: nat, stop: nat, last: Option<nat>)
    requires FirstTail(s, 0) == Some(first)
    requires start == StretchStart(s, first) && stop == StretchEnd(s, first)
    requires first <= stop && last == LastTail(s, first, stop)
    ensures last.Some? && MatchSpan(s, start, last.value)
    ensures forall i: nat, e: nat :: MatchSpan(s, i, e) ==> start < i || (start == i && e <= last.value)
  {
    TailStartsWithDot(s, first);
    assert first < stop;
    var dot := last.value;
    assert NoNewlineBetween(s, start, dot) by {
      forall k | start <= k < dot ensures s[k] != '\n' {
        if k >= first { assert NoNewlineBetween(s, first, stop); }
      }
    }
    forall i: nat, e: nat | MatchSpan(s, i, e) ensures start < i || (start == i && e <= dot) {
      TailStartsWithDot(s, e);
      assert first <= e;
      assert e < stop ==> e <= dot;
      SpanOrder(s, first, start, stop, dot, i, e);
    }
  }

  /**
   * A match whose tail is at or after the first tail cannot start before the
   * line of the first tail, and from that line's start it cannot reach past
   * the line feed that ends it.
   */
  lemma SpanOrder(s: string, first: nat, start: nat, stop: nat, dot: nat, i: nat, e: nat)
    requires start <= first <= stop <= |s|
    requires start > 0 ==> s[start - 1] == '\n'
    requires stop < |s| ==> s[stop] == '\n'
    requires i <= e < |s| && s[e] == '.' && first <= e
    requires NoNewlineBetween(s, i, e)
    requires e < stop ==> e <= dot
    ensures start < i || (start == i && e <= dot)
  {
    if start > 0 {
      assert !(i <= start - 1);
    }
  }

  /** The three captures of the structural match: file name, line number, and reason. */
  datatype Captures = Captures(filename: string, start: string, reason: string)

  predicate EndsWithSwift(f: string) {
    |f| >= 6 && f[|f| - 6..] == ".swift"
  }

  /**
   * String#match with the structural pattern, returning its captures. The
   * column number is matched and dropped; `\s*` skips whitespace, line feeds
   * included, and the reason then runs up to the next line feed.
   */
  function MatchLine(s: string): (m: Option<Captures>)
    ensures m.None? <==> forall i: nat, e: nat :: !MatchSpan(s, i, e)
    ensures m.Some? ==> LocateFile(s).Some? && Shaped(s, LocateFile(s).value, m.value)
  {
    match LocateFile(s)
    case None =>
      assert forall i: nat, e: nat :: !MatchSpan(s, i, e);
      None
    case Some(sp) =>
      Some(CapturesAt(s, sp))
  }

  /**
   * What the captures `c` of the match `sp` are: the file name is the text
   * from the match start through `.swift`, with no line feed; the line
   * number is a non-empty run of digits framed by the colons after `.swift`;
   * the reason is what `\s*(.*)` takes after the column number, so it has no
   * line feed and starts with no whitespace.
   */
  predicate Shaped(s: string, sp: Span, c: Captures) {
    && sp.start <= sp.dot && sp.dot + 6 <= |s|
    && c.filename == s[sp.start..sp.dot + 6]
    && EndsWithSwift(c.filename)
    && NoNewline(c.filename)
    && |c.start| > 0 && AllDigits(c.start)
    && OccursAt(s, ":" + c.start + ":", sp.dot + 6)
    && ReasonAfterColumn(s, sp.dot + 8 + |c.start|, c.reason)
    && NoNewline(c.reason)
    && (c.reason == [] || !IsRegexSpace(c.reason[0]))
  }

  /**
   * `\d+:\s*(.*)` from index `k` captures `t`: a non-empty run of digits
   * (the column number) closed by a colon at `c`; whitespace, line feeds
   * included, up to `w`, the first index after that colon that is not
   * whitespace; and `t`, from `w` up to the next line feed or the end.
   */
  predicate ReasonAfterColumn(s: string, k: nat, t: string) {
    exists c: nat, w: nat | c < w <= |s| :: ColumnThenReason(s, k, c, w, t)
  }

  /** `\d+:\s*(.*)` from `k` with the column's colon at `c` and the reason `t` at `w`. */
  predicate ColumnThenReason(s: string, k: nat, c: nat, w: nat, t: string) {
    && k < c < w <= |s|
    && (forall j :: k <= j < c ==> IsDigit(s[j]))
    && s[c] == ':'
    && (forall j :: c < j < w ==> IsRegexSpace(s[j]))
    && (w < |s| ==> !IsRegexSpace(s[w]))
    && w + |t| <= |s| && s[w..w + |t|] == t
    && NoNewline(t)
    && (w + |t| == |s| || s[w + |t|] == '\n')
  }

  /** Room in `s` for the captures read from `sp`: true of every match. */
  predicate CaptureBounds(s: string, sp: Span) {
    && sp.start <= sp.dot && sp.dot + 7 <= |s|
    && DigitsEnd(s, sp.dot + 7) < |s|
    && DigitsEnd(s, DigitsEnd(s, sp.dot + 7) + 1) < |s|
  }

  /** The captures of the match `sp`: `.captures` after the structural match. */
  function CapturesAt(s: string, sp: Span): (c: Captures)
    requires CaptureBounds(s, sp)
    ensures MatchSpan(s, sp.start, sp.dot) ==> Shaped(s, sp, c)
  {
    var d1 := DigitsEnd(s, sp.dot + 7);
    var w := SkipSpace(s, DigitsEnd(s, d1 + 1) + 1);
    var c := Captures(s[sp.start..sp.dot + 6], s[sp.dot + 7..d1], s[w..StretchEnd(s, w)]);
    if MatchSpan(s, sp.start, sp.dot) then
      CapturesShape(s, sp, d1, w, c);
      c
    else c
  }

  /** The captures read at `sp`, where the line number ends at `d1` and the reason starts at `w`, have the shape of a match. */
  lemma CapturesShape(s: string, sp: Span, d1: nat, w: nat, c: Captures)
    requires MatchSpan(s, sp.start, sp.dot)
    requires d1 == DigitsEnd(s, sp.dot + 7) && w == SkipSpace(s, DigitsEnd(s, d1 + 1) + 1)
    requires c == Captures(s[sp.start..sp.dot + 6], s[sp.dot + 7..d1], s[w..StretchEnd(s, w)])
    ensures Shaped(s, sp, c)
  {
    FilePart(s, sp, c.filename);
    NumberPart(s, sp, d1, c.start);
    ReasonPart(s, sp, d1, w, c.start, c.reason);
  }

  lemma FilePart(s: string, sp: Span, f: string)
    requires MatchSpan(s, sp.start, sp.dot) && sp.dot + 6 <= |s| && f == s[sp.start..sp.dot + 6]
    ensures EndsWithSwift(f) && NoNewline(f)
  {
    FileNameShape(s, sp);
  }

  lemma NumberPart(s: string, sp: Span, d1: nat, ln: string)
    requires MatchSpan(s, sp.start, sp.dot)
    requires d1 == DigitsEnd(s, sp.dot + 7) && ln == s[sp.dot + 7..d1]
    ensures |ln| > 0 && AllDigits(ln) && OccursAt(s, ":" + ln + ":", sp.dot + 6)
  {
    LineNumberShape(s, sp);
  }

  lemma ReasonPart(s: string, sp: Span, d1: nat, w: nat, ln: string, t: string)
    requires MatchSpan(s, sp.start, sp.dot)
    requires d1 == DigitsEnd(s, sp.dot + 7) && w == SkipSpace(s, DigitsEnd(s, d1 + 1) + 1)
    requires ln == s[sp.dot + 7..d1] && t == s[w..StretchEnd(s, w)]
    ensures ReasonAfterColumn(s, sp.dot + 8 + |ln|, t)
    ensures NoNewline(t) && (t == [] || !IsRegexSpace(t[0]))
  {
    var col := ColumnAt(s, sp, d1, w, sp.dot + 8 + |ln|);
    ReasonAfterColumnAt(s, sp.dot + 8 + |ln|, col, w, t);
  }

  /** The column number of a match starts at `k` and is closed by the colon at `c`, after which `\s*` stops at `w`. */
  lemma ColumnAt(s: string, sp: Span, d1: nat, w: nat, k: nat) returns (c: nat)
    requires MatchSpan(s, sp.start, sp.dot)
    requires d1 == DigitsEnd(s, sp.dot + 7) && w == SkipSpace(s, DigitsEnd(s, d1 + 1) + 1)
    requires k == d1 + 1
    ensures k < c < |s| && s[c] == ':' && (forall j :: k <= j < c ==> IsDigit(s[j]))
    ensures w == SkipSpace(s, c + 1)
  {
    assert NumbersAt(s, sp.dot + 7);
    c := DigitsEnd(s, d1 + 1);
  }

  /**
   * The reason `t` read at `w`, after the colon at `c` that closes the
   * column number starting at `k`, is what `\s*(.*)` takes there: it has no
   * line feed and starts with no whitespace.
   */
  lemma ReasonAfterColumnAt(s: string, k: nat, c: nat, w: nat, t: string)
    requires k < c < |s| && s[c] == ':' && forall j :: k <= j < c ==> IsDigit(s[j])
    requires w == SkipSpace(s, c + 1) && t == s[w..StretchEnd(s, w)]
    ensures ReasonAfterColumn(s, k, t)
    ensures NoNewline(t) && (t == [] || !IsRegexSpace(t[0]))
  {
    var n := StretchEnd(s, w);
    StretchSlice(s, w, n);
    assert w + |t| == n && s[w..w + |t|] == t;
    assert ColumnThenReason(s, k, c, w, t);
    if t != [] {
      assert t[0] == s[w];
    }
  }

  lemma FileNameShape(s: string, sp: Span)
    requires MatchSpan(s, sp.start, sp.dot)
    ensures sp.dot + 6 <= |s|
    ensures EndsWithSwift(s[sp.start..sp.dot + 6]) && NoNewline(s[sp.start..sp.dot + 6])
  {
    var f := s[sp.start..sp.dot + 6];
    assert s[sp.dot..sp.dot + 7] == ".swift:";
    assert f[|f| - 6..] == s[sp.dot..sp.dot + 7][..6] == ".swift";
    forall k | 0 <= k < |f| ensures f[k] != '\n' {
      if k >= sp.dot - sp.start {
        assert f[k] == s[sp.dot..sp.dot + 7][k - (sp.dot - sp.start)];
      }
    }
  }

  lemma LineNumberShape(s: string, sp: Span)
    requires MatchSpan(s, sp.start, sp.dot)
    ensures var d1 := DigitsEnd(s, sp.dot + 7);
      && sp.dot + 7 < d1 < |s|
      && AllDigits(s[sp.dot + 7..d1])
      && OccursAt(s, ":" + s[sp.dot + 7..d1] + ":", sp.dot + 6)
  {
    var d1 := DigitsEnd(s, sp.dot + 7);
    assert NumbersAt(s, sp.dot + 7);
    assert s[sp.dot + 6] == ':' by { assert s[sp.dot..sp.dot + 7][6] == s[sp.dot + 6]; }
    DigitsSlice(s, sp.dot + 7, d1);
    ColonFramed(s, sp.dot + 6, d1);
  }

  lemma DigitsSlice(s: string, k: nat, e: nat)
    requires k <= e <= |s|
    requires forall j :: k <= j < e ==> IsDigit(s[j])
    ensures AllDigits(s[k..e])
  {
    var digits := s[k..e];
    forall j | 0 <= j < |digits| ensures IsDigit(digits[j]) {
      assert digits[j] == s[k + j];
    }
  }

  /** The digits between two colons, as `OccursAt` sees them. */
  lemma ColonFramed(s: string, c: nat, d: nat)
    requires c < d < |s| && s[c] == ':' && s[d] == ':'
    ensures OccursAt(s, ":" + s[c + 1..d] + ":", c)
  {
    var p := ":" + s[c + 1..d] + ":";
    forall k | 0 <= k < |p| ensures s[c + k] == p[k] {
      if 0 < k < |p| - 1 {
        assert p[k] == s[c + 1..d][k - 1];
      }
    }
    assert s[c..c + |p|] == p;
  }

  /** A stretch without line feeds, cut out as a string of its own. */
  lemma StretchSlice(s: string, i: nat, j: nat)
    requires i <= j <= |s| && NoNewlineBetween(s, i, j)
    ensures NoNewline(s[i..j])
  {
    forall k | 0 <= k < j - i ensures s[i..j][k] != '\n' {
      assert s[i..j][k] == s[i + k];
    }
  }

  // ------------------------------------------------- SwiftLint's line layout

  /** A line as SwiftLint writes it: `<path>:<line>:<column>: <reason>`, then the line terminator. */
  function FormattedLine(path: string, ln: string, col: string, reason: string, terminator: string): string {
    path + ":" + ln + ":" + col + ": " + reason + terminator
  }

  /** The conditions under which a laid-out line gives its parts back. */
  predicate Parsable(path: string, ln: string, col: string, reason: string, terminator: string) {
    && EndsWithSwift(path) && NoNewline(path)
    && |ln| > 0 && AllDigits(ln)
    && |col| > 0 && AllDigits(col)
    && NoNewline(reason)
    && (reason == [] || !IsRegexSpace(reason[0]))
    && (forall k :: 0 <= k < |reason| ==> !OccursAt(reason, ".swift:", k))
    && (terminator == "" || terminator == "\n")
  }

  /**
   * A line in SwiftLint's layout gives back its path, its line number and its
   * reason, provided the reason does not itself contain `.swift:` (the
   * greedy file name would run on into it) and does not begin with
   * whitespace (which `\s*` would swallow).
   */
  lemma MatchFormattedLine(path: string, ln: string, col: string, reason: string, terminator: string)
    requires Parsable(path, ln, col, reason, terminator)
    ensures MatchLine(FormattedLine(path, ln, col, reason, terminator)) == Some(Captures(path, ln, reason))
  {
    var s := FormattedLine(path, ln, col, reason, terminator);
    var d1, d2, w := FormattedLineFacts(path, ln, col, reason, terminator);
    CapturesAtIs(s, Span(0, |path| - 6), d1, d2, w, path, ln, reason);
  }

  /**
   * The pieces of a laid-out line stand where the captures of the search
   * read them: the line number ends at `d1` and the reason starts at `w`.
   */
  lemma FormattedLineFacts(path: string, ln: string, col: string, reason: string, terminator: string)
    returns (d1: nat, d2: nat, w: nat)
    requires Parsable(path, ln, col, reason, terminator)
    ensures var s := FormattedLine(path, ln, col, reason, terminator);
      && 6 <= |path| && CaptureBounds(s, Span(0, |path| - 6))
      && MatchLine(s) == Some(CapturesAt(s, Span(0, |path| - 6)))
      && ReadsAs(s, Span(0, |path| - 6), d1, d2, w, path, ln, reason)
  {
    d1 := |path| + 1 + |ln|;
    d2 := d1 + 1 + |col|;
    w := SkipSpace(FormattedLine(path, ln, col, reason, terminator), d2 + 1);
    FormattedLineSpans(path, ln, col, reason, terminator);
    FormattedReadsAs(path, ln, col, reason, terminator, d1, d2);
  }

  /** The pieces of a laid-out line, read where the captures of the search read them. */
  lemma FormattedReadsAs(path: string, ln: string, col: string, reason: string, terminator: string,
                         d1: nat, d2: nat)
    requires Parsable(path, ln, col, reason, terminator)
    requires d1 == |path| + 1 + |ln| && d2 == d1 + 1 + |col|
    ensures var s := FormattedLine(path, ln, col, reason, terminator);
      6 <= |path| && d2 < |s| && ReadsAs(s, Span(0, |path| - 6), d1, d2, SkipSpace(s, d2 + 1), path, ln, reason)
  {
    var s := FormattedLine(path, ln, col, reason, terminator);
    var sp := Span(0, |path| - 6);
    assert sp.dot + 7 == |path| + 1 && sp.dot + 6 == |path|;
    FormattedNumbers(path, ln, col, reason, terminator, d1, d2);
    FormattedReason(path, ln, col, reason, terminator, d2 + 1);
    assert s[SkipSpace(s, d2 + 1)..StretchEnd(s, SkipSpace(s, d2 + 1))] == reason;
    LineParts(path, ln, col, reason, terminator);
    LineNumberPart(path, ln, col, reason, terminator, d1);
  }

  /**
   * The match `sp` reads the file name `path` up to its `.swift`, the line
   * number `ln` from just after that to `d1`, the column number from just
   * after that to `d2`, and the reason `reason` from `w` to the next line
   * feed, where `w` is the first character `\s*` leaves after the column
   * number.
   */
  predicate ReadsAs(s: string, sp: Span, d1: nat, d2: nat, w: nat, path: string, ln: string, reason: string) {
    && CaptureBounds(s, sp)
    && DigitsEnd(s, sp.dot + 7) == d1
    && DigitsEnd(s, d1 + 1) == d2 && w == SkipSpace(s, d2 + 1)
    && s[sp.start..sp.dot + 6] == path && s[sp.dot + 7..d1] == ln
    && s[w..StretchEnd(s, w)] == reason
  }

  /** The captures of the match `sp`, given the pieces of text where the search reads them. */
  lemma CapturesAtIs(s: string, sp: Span, d1: nat, d2: nat, w: nat, path: string, ln: string, reason: string)
    requires ReadsAs(s, sp, d1, d2, w, path, ln, reason)
    ensures CapturesAt(s, sp) == Captures(path, ln, reason)
  {
  }

  /** Where the search places the file name and the numbers in a laid-out line. */
  lemma FormattedLineSpans(path: string, ln: string, col: string, reason: string, terminator: string)
    requires Parsable(path, ln, col, reason, terminator)
    ensures var s := FormattedLine(path, ln, col, reason, terminator);
      && 6 <= |path|
      && MatchSpan(s, 0, |path| - 6)
      && CaptureBounds(s, Span(0, |path| - 6))
      && MatchLine(s) == Some(CapturesAt(s, Span(0, |path| - 6)))
  {
    var s := FormattedLine(path, ln, col, reason, terminator);
    var dot := |path| - 6;
    FormattedLineTail(path, ln, col, reason, terminator);
    FormattedLineNoLaterTail(path, ln, col, reason, terminator);
    assert MatchSpan(s, 0, dot) by {
      forall k | 0 <= k < dot ensures s[k] != '\n' {
        LineAt(path, ln, col, reason, terminator, k);
      }
    }
    LocateLongest(s, dot);
  }

  /** Where `\s*(.*)` places the reason in a laid-out line. */
  lemma FormattedReason(path: string, ln: string, col: string, reason: string, terminator: string, k: nat)
    requires Parsable(path, ln, col, reason, terminator)
    requires k == |path| + |ln| + |col| + 3
    ensures var s := FormattedLine(path, ln, col, reason, terminator);
      && k < |s|
      && SkipSpace(s, k) <= StretchEnd(s, SkipSpace(s, k)) <= |s|
      && s[SkipSpace(s, k)..StretchEnd(s, SkipSpace(s, k))] == reason
  {
    var s := FormattedLine(path, ln, col, reason, terminator);
    var r0 := |path| + |ln| + |col| + 4;
    LineAt(path, ln, col, reason, terminator, r0 - 1);
    LineParts(path, ln, col, reason, terminator);
    assert reason == [] ==> forall j :: r0 <= j < |s| ==> IsRegexSpace(s[j]) by {
      if reason == [] {
        forall j | r0 <= j < |s| ensures IsRegexSpace(s[j]) {
          LineAt(path, ln, col, reason, terminator, j);
        }
      }
    }
    if r0 + |reason| < |s| {
      LineAt(path, ln, col, reason, terminator, r0 + |reason|);
    }
    ReasonAfterSpace(s, r0 - 1, reason);
  }

  /** A match at the very start whose tail no later index repeats is the one the search picks. */
  lemma LocateLongest(s: string, e: nat)
    requires MatchSpan(s, 0, e)
    requires forall e' :: e < e' ==> !TailAt(s, e')
    ensures LocateFile(s) == Some(Span(0, e))
  {
    var sp := LocateFile(s).value;
    assert sp.start == 0 && e <= sp.dot;
    assert TailAt(s, sp.dot);
  }

  /**
   * `\s*(.*)` at `k` captures `t` when `t` is what stands there up to a line
   * feed or the end, and `t` does not begin with whitespace.
   */
  lemma ReasonAfterSpace(s: string, k0: nat, t: string)
    requires k0 + 1 + |t| <= |s| && IsRegexSpace(s[k0]) && s[k0 + 1..k0 + 1 + |t|] == t
    requires NoNewline(t)
    requires t != [] ==> !IsRegexSpace(t[0]) && (k0 + 1 + |t| == |s| || s[k0 + 1 + |t|] == '\n')
    requires t == [] ==> forall j :: k0 < j < |s| ==> IsRegexSpace(s[j])
    ensures SkipSpace(s, k0) <= StretchEnd(s, SkipSpace(s, k0)) <= |s|
    ensures s[SkipSpace(s, k0)..StretchEnd(s, SkipSpace(s, k0))] == t
  {
    var k := k0 + 1;
    assert SkipSpace(s, k0) == SkipSpace(s, k);
    if t == [] {
      assert SkipSpace(s, k) == |s|;
    } else {
      assert s[k] == t[0];
      assert SkipSpace(s, k) == k;
      assert forall j :: k <= j < k + |t| ==> s[j] == t[j - k];
      StretchEndIs(s, k, k + |t|);
    }
  }

  /** A line-feed-free stretch ended by a line feed or the end is what `StretchEnd` measures. */
  lemma StretchEndIs(s: string, k: nat, e: nat)
    requires k <= e <= |s| && (e == |s| || s[e] == '\n')
    requires forall j :: k <= j < e ==> s[j] != '\n'
    ensures StretchEnd(s, k) == e
    decreases e - k
  {
    if k < e {
      StretchEndIs(s, k + 1, e);
    }
  }

  /** The line number of a laid-out line, which ends at `d1`. */
  lemma LineNumberPart(path: string, ln: string, col: string, reason: string, terminator: string, d1: nat)
    requires d1 == |path| + 1 + |ln|
    ensures var s := FormattedLine(path, ln, col, reason, terminator);
      d1 <= |s| && s[|path| + 1..d1] == ln
  {
    var s := FormattedLine(path, ln, col, reason, terminator);
    forall k | |path| + 1 <= k < d1 ensures s[k] == ln[k - |path| - 1] {
      LineAt(path, ln, col, reason, terminator, k);
    }
  }

  lemma LineParts(path: string, ln: string, col: string, reason: string, terminator: string)
    ensures var s := FormattedLine(path, ln, col, reason, terminator);
      var r0 := |path| + |ln| + |col| + 4;
      && s[0..|path|] == path
      && s[r0..r0 + |reason|] == reason
  {
    var s := FormattedLine(path, ln, col, reason, terminator);
    var r0 := |path| + |ln| + |col| + 4;
    forall k | 0 <= k < |path| ensures s[k] == path[k] {
      LineAt(path, ln, col, reason, terminator, k);
    }
    forall k | 0 <= k < |reason| ensures s[r0 + k] == reason[k] {
      LineAt(path, ln, col, reason, terminator, r0 + k);
    }
  }

  /** The tail of the pattern matches where the path's `.swift` begins, with the numbers read off as laid out. */
  lemma FormattedLineTail(path: string, ln: string, col: string, reason: string, terminator: string)
    requires Parsable(path, ln, col, reason, terminator)
    ensures var s := FormattedLine(path, ln, col, reason, terminator);
      && TailAt(s, |path| - 6)
      && DigitsEnd(s, |path| + 1) == |path| + 1 + |ln|
      && DigitsEnd(s, |path| + |ln| + 2) == |path| + |ln| + 2 + |col|
  {
    FormattedSwift(path, ln, col, reason, terminator);
    FormattedNumbers(path, ln, col, reason, terminator, |path| + 1 + |ln|, |path| + 1 + |ln| + 1 + |col|);
  }

  /** The path's `.swift` and the colon after it. */
  lemma FormattedSwift(path: string, ln: string, col: string, reason: string, terminator: string)
    requires Parsable(path, ln, col, reason, terminator)
    ensures var s := FormattedLine(path, ln, col, reason, terminator);
      |path| + 1 <= |s| && s[|path| - 6..|path| + 1] == ".swift:"
  {
    var s := FormattedLine(path, ln, col, reason, terminator);
    var e := |path| - 6;
    forall k | 0 <= k < 7 ensures s[e + k] == ".swift:"[k] {
      LineAt(path, ln, col, reason, terminator, e + k);
      if k < 6 {
        assert path[|path| - 6..][k] == path[e + k];
      }
    }
  }

  /** The line and column numbers as `DigitsEnd` reads them, each followed by a colon. */
  lemma FormattedNumbers(path: string, ln: string, col: string, reason: string, terminator: string,
                         d1: nat, d2: nat)
    requires Parsable(path, ln, col, reason, terminator)
    requires d1 == |path| + 1 + |ln| && d2 == d1 + 1 + |col|
    ensures var s := FormattedLine(path, ln, col, reason, terminator);
      && d2 < |s| && s[d1] == ':' && s[d2] == ':'
      && DigitsEnd(s, |path| + 1) == d1
      && DigitsEnd(s, d1 + 1) == d2
  {
    var s := FormattedLine(path, ln, col, reason, terminator);
    forall k | |path| + 1 <= k < d1 ensures IsDigit(s[k]) {
      LineAt(path, ln, col, reason, terminator, k);
    }
    LineAt(path, ln, col, reason, terminator, d1);
    DigitsEndIs(s, |path| + 1, d1);
    forall k | d1 + 1 <= k < d2 ensures IsDigit(s[k]) {
      LineAt(path, ln, col, reason, terminator, k);
    }
    LineAt(path, ln, col, reason, terminator, d2);
    DigitsEndIs(s, d1 + 1, d2);
  }

  /** A run of digits ended by a non-digit is what `DigitsEnd` measures. */
  lemma DigitsEndIs(s: string, k: nat, e: nat)
    requires k <= e < |s| && !IsDigit(s[e])
    requires forall j :: k <= j < e ==> IsDigit(s[j])
    ensures DigitsEnd(s, k) == e
  {
  }

  /** No later index starts the tail: this is why the greedy file name stops at the path. */
  lemma FormattedLineNoLaterTail(path: string, ln: string, col: string, reason: string, terminator: string)
    requires Parsable(path, ln, col, reason, terminator)
    ensures forall e :: |path| - 6 < e ==> !TailAt(FormattedLine(path, ln, col, reason, terminator), e)
  {
    var s := FormattedLine(path, ln, col, reason, terminator);
    var r0 := |path| + |ln| + |col| + 4;
    forall e: nat | |path| - 6 < e ensures !TailAt(s, e) {
      if e + 7 > |s| {
      } else if r0 <= e < r0 + |reason| {
        NoTailInReason(path, ln, col, reason, terminator, e);
      } else {
        NoDotAt(path, ln, col, reason, terminator, e);
        assert s[e..e + 7][0] == s[e];
      }
    }
  }

  /** Outside the reason, a laid-out line has no `.` after the one of the path's `.swift`. */
  lemma NoDotAt(path: string, ln: string, col: string, reason: string, terminator: string, e: nat)
    requires Parsable(path, ln, col, reason, terminator)
    requires |path| - 6 < e < |FormattedLine(path, ln, col, reason, terminator)|
    requires var r0 := |path| + |ln| + |col| + 4; e < r0 || e >= r0 + |reason|
    ensures FormattedLine(path, ln, col, reason, terminator)[e] != '.'
  {
    LineAt(path, ln, col, reason, terminator, e);
    if e < |path| {
      assert path[|path| - 6..][e - (|path| - 6)] == path[e];
    }
  }

  /** A window of seven characters inside the reason is not `.swift:`. */
  lemma NoTailInReason(path: string, ln: string, col: string, reason: string, terminator: string, e: nat)
    requires Parsable(path, ln, col, reason, terminator)
    requires var r0 := |path| + |ln| + |col| + 4; r0 <= e < r0 + |reason|
    requires e + 7 <= |FormattedLine(path, ln, col, reason, terminator)|
    ensures !TailAt(FormattedLine(path, ln, col, reason, terminator), e)
  {
    var s := FormattedLine(path, ln, col, reason, terminator);
    var r0 := |path| + |ln| + |col| + 4;
    var r1 := r0 + |reason|;
    if e + 7 <= r1 {
      LineParts(path, ln, col, reason, terminator);
      WindowInside(s, reason, r0, e, 7);
      assert !OccursAt(reason, ".swift:", e - r0);
    } else {
      LineAt(path, ln, col, reason, terminator, r1);
      assert s[e..e + 7][r1 - e] == s[r1];
    }
  }

  /** A window of `s` inside an occurrence of `u` at `a` is the same window of `u`. */
  lemma WindowInside(s: string, u: string, a: nat, e: nat, n: nat)
    requires a + |u| <= |s| && s[a..a + |u|] == u
    requires a <= e && e + n <= a + |u|
    ensures s[e..e + n] == u[e - a..e - a + n]
  {
    forall j | e <= j < e + n ensures s[j] == u[j - a] {
      assert s[j] == s[a..a + |u|][j - a];
    }
  }

  /** The character at index `k` of a laid-out line. */
  lemma LineAt(path: string, ln: string, col: string, reason: string, terminator: string, k: nat)
    requires k < |FormattedLine(path, ln, col, reason, terminator)|
    ensures var s := FormattedLine(path, ln, col, reason, terminator);
      var d1 := |path| + 1 + |ln|;
      var d2 := d1 + 1 + |col|;
      var r0 := d2 + 2;
      && (k < |path| ==> s[k] == path[k])
      && (k == |path| ==> s[k] == ':')
      && (|path| < k < d1 ==> s[k] == ln[k - |path| - 1])
      && (k == d1 ==> s[k] == ':')
      && (d1 < k < d2 ==> s[k] == col[k - d1 - 1])
      && (k == d2 ==> s[k] == ':')
      && (k == d2 + 1 ==> s[k] == ' ')
      && (r0 <= k < r0 + |reason| ==> s[k] == reason[k - r0])
      && (r0 + |reason| <= k ==> s[k] == terminator[k - r0 - |reason|])
  {
  }
}
