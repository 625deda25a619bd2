/**
 * The reason decomposition `(.*?):?\s(.*?):\s(.*)\((.*)\)` applied to the
 * reason captured by the structural match.
 *
 * The reason holds no line feed, so every `.` matches every character and a
 * match found at any start can be stretched back to the first character by
 * the lazy first group: the search always succeeds from index 0 if at all.
 * From there, backtracking tries the issue type from short to long (lazy),
 * the check name from short to long (lazy), the description from long to
 * short (greedy) and the rule from long to short (greedy); the first
 * combination that fits is the match. `IsReasonMatch` describes every
 * combination that fits and `TriedFirst` the order they are tried in;
 * `LocateReason` is proved to return the first one.
 */
module ReasonMatch {
  import opened Wrappers
  import opened Text

  /** `:\s` at index `m`. */
  predicate ColonSpaceAt(r: string, m: nat) {
    m + 1 < |r| && r[m] == ':' && IsRegexSpace(r[m + 1])
  }

  /** `:?\s` matches right after an issue type that ends at `a`. */
  predicate SeparatorAt(r: string, a: nat) {
    a < |r| && (ColonSpaceAt(r, a) || IsRegexSpace(r[a]))
  }

  /** Where the check name starts, given the end `a` of the issue type. */
  function AfterSeparator(r: string, a: nat): (p: nat)
    requires SeparatorAt(r, a)
    ensures a < p <= a + 2
  {
    if r[a] == ':' then a + 2 else a + 1
  }

  /**
   * Where the groups of one match end: the issue type is `r[..sep]`, the check
   * name runs from after the separator to `colon`, the description from
   * `colon + 2` to `open`, and the rule from `open + 1` to `close`.
   */
  datatype ReasonSpan = ReasonSpan(sep: nat, colon: nat, open: nat, close: nat)

  /** The pattern matches `r` from its first character with the groups ending as in `x`. */
  predicate IsReasonMatch(r: string, x: ReasonSpan) {
    && SeparatorAt(r, x.sep)
    && AfterSeparator(r, x.sep) <= x.colon
    && ColonSpaceAt(r, x.colon)
    && x.colon + 2 <= x.open < x.close < |r|
    && r[x.open] == '('
    && r[x.close] == ')'
  }

  /** Backtracking tries `x` no later than `y`. */
  predicate TriedFirst(x: ReasonSpan, y: ReasonSpan) {
    || x.sep < y.sep
    || (x.sep == y.sep && x.colon < y.colon)
    || (x.sep == y.sep && x.colon == y.colon && x.open > y.open)
    || (x.sep == y.sep && x.colon == y.colon && x.open == y.open && x.close >= y.close)
  }

  /** The largest index in `[lo, hi)` holding `ch`. */
  function LastIndexIn(r: string, ch: char, lo: nat, hi: nat): (k: Option<nat>)
    requires lo <= hi <= |r|
    ensures k.Some? ==> lo <= k.value < hi && r[k.value] == ch
    ensures k.Some? ==> forall j :: k.value < j < hi ==> r[j] != ch
    ensures k.None? ==> forall j :: lo <= j < hi ==> r[j] != ch
    decreases hi - lo
  {
    if lo == hi then None
    else if r[hi - 1] == ch then Some(hi - 1)
    else LastIndexIn(r, ch, lo, hi - 1)
  }

  /**
   * `(.*)\((.*)\)` from `q`, both groups greedy: the rule closes at the last
   * `)` and opens at the last `(` before it. Returns `(open, close)`.
   */
  function RuleParens(r: string, q: nat): (p: Option<(nat, nat)>)
    ensures p.Some? ==> q <= p.value.0 < p.value.1 < |r| && r[p.value.0] == '(' && r[p.value.1] == ')'
    ensures p.Some? ==> forall c, d :: q <= c < d < |r| && r[c] == '(' && r[d] == ')' ==>
      c < p.value.0 || (c == p.value.0 && d <= p.value.1)
    ensures p.None? ==> forall c, d :: q <= c < d < |r| && r[c] == '(' ==> r[d] != ')'
  {
    match LastIndexIn(r, ')', 0, |r|)
    case None => None
    case Some(d) =>
      if q > d then None
      else
        match LastIndexIn(r, '(', q, d)
        case None => None
        case Some(c) => Some((c, d))
  }

  /** The first `:\s` at or after `p`. */
  function FirstColonSpace(r: string, p: nat): (m: Option<nat>)
    ensures m.Some? ==> p <= m.value && ColonSpaceAt(r, m.value)
    ensures m.Some? ==> forall j :: p <= j < m.value ==> !ColonSpaceAt(r, j)
    ensures m.None? ==> forall j :: p <= j ==> !ColonSpaceAt(r, j)
    decreases |r| - p
  {
    if p + 1 >= |r| then None
    else if ColonSpaceAt(r, p) then Some(p)
    else FirstColonSpace(r, p + 1)
  }

  /**
   * The rest of the pattern from the start `p` of the check name: the lazy
   * check name stops at the first `:\s`, since any later one leaves less
   * room for the parentheses. Returns `(colon, open, close)`.
   */
  function CheckNameOnward(r: string, p: nat): (t: Option<(nat, nat, nat)>)
    ensures t.Some? ==> p <= t.value.0 && ColonSpaceAt(r, t.value.0)
    ensures t.Some? ==> t.value.0 + 2 <= t.value.1 < t.value.2 < |r| && r[t.value.1] == '(' && r[t.value.2] == ')'
  {
    match FirstColonSpace(r, p)
    case None => None
    case Some(m) =>
      match RuleParens(r, m + 2)
      case None => None
      case Some(cd) => Some((m, cd.0, cd.1))
  }

  /** Every match that leaves the check name to start at or after `p` is tried after the one `CheckNameOnward` picks. */
  lemma CheckNameOnwardFirst(r: string, p: nat, x: ReasonSpan)
    requires p <= x.colon && ColonSpaceAt(r, x.colon)
    requires x.colon + 2 <= x.open < x.close < |r| && r[x.open] == '(' && r[x.close] == ')'
    ensures CheckNameOnward(r, p).Some?
    ensures var t := CheckNameOnward(r, p).value;
      t.0 < x.colon || (t.0 == x.colon && (t.1 > x.open || (t.1 == x.open && t.2 >= x.close)))
  {
    var m := FirstColonSpace(r, p).value;
    assert m <= x.colon;
    assert RuleParens(r, m + 2).Some?;
  }

  /** The first end `a >= k` of the issue type from which the rest of the pattern matches. */
  function FirstSeparator(r: string, k: nat): (a: Option<nat>)
    ensures a.Some? ==> k <= a.value && SeparatorAt(r, a.value)
    ensures a.Some? ==> CheckNameOnward(r, AfterSeparator(r, a.value)).Some?
    ensures a.Some? ==> forall j :: k <= j < a.value && SeparatorAt(r, j) ==> CheckNameOnward(r, AfterSeparator(r, j)).None?
    ensures a.None? ==> forall j :: k <= j && SeparatorAt(r, j) ==> CheckNameOnward(r, AfterSeparator(r, j)).None?
    decreases |r| - k
  {
    if k >= |r| then None
    else if SeparatorAt(r, k) && CheckNameOnward(r, AfterSeparator(r, k)).Some? then Some(k)
    else FirstSeparator(r, k + 1)
  }

  /** The match String#match finds: the first fitting one in backtracking order. */
  function LocateReason(r: string): (x: Option<ReasonSpan>)
    ensures x.None? <==> forall y :: !IsReasonMatch(r, y)
    ensures x.Some? ==> IsReasonMatch(r, x.value)
    ensures x.Some? ==> forall y :: IsReasonMatch(r, y) ==> TriedFirst(x.value, y)
  {
    match FirstSeparator(r, 0)
    case None =>
      assert forall y :: !IsReasonMatch(r, y) by {
        forall y | IsReasonMatch(r, y) ensures false {
          CheckNameOnwardFirst(r, AfterSeparator(r, y.sep), y);
        }
      }
      None
    case Some(a) =>
      var t := CheckNameOnward(r, AfterSeparator(r, a)).value;
      var x := ReasonSpan(a, t.0, t.1, t.2);
      assert IsReasonMatch(r, x);
      assert forall y :: IsReasonMatch(r, y) ==> TriedFirst(x, y) by {
        forall y | IsReasonMatch(r, y) ensures TriedFirst(x, y) {
          CheckNameOnwardFirst(r, AfterSeparator(r, y.sep), y);
        }
      }
      Some(x)
  }

  /** The lazy issue type stops at the first whitespace: it contains none. */
  lemma IssueTypeHasNoSpace(r: string)
    requires LocateReason(r).Some?
    ensures forall k :: 0 <= k < LocateReason(r).value.sep ==> !IsRegexSpace(r[k])
  {
    var x := LocateReason(r).value;
    forall k: nat | k < x.sep ensures !IsRegexSpace(r[k]) {
      var y := ReasonSpan(k, x.colon, x.open, x.close);
      assert IsRegexSpace(r[k]) ==> IsReasonMatch(r, y);
    }
  }

  /** The lazy check name stops at the first `:\s` after the separator: it contains none. */
  lemma CheckNameHasNoColonSpace(r: string)
    requires LocateReason(r).Some?
    ensures var x := LocateReason(r).value;
      forall j :: AfterSeparator(r, x.sep) <= j < x.colon ==> !ColonSpaceAt(r, j)
  {
    var x := LocateReason(r).value;
    forall j: nat | AfterSeparator(r, x.sep) <= j < x.colon ensures !ColonSpaceAt(r, j) {
      var y := ReasonSpan(x.sep, j, x.open, x.close);
      assert ColonSpaceAt(r, j) ==> IsReasonMatch(r, y);
    }
  }

  /**
   * The greedy description reaches the last `(` that still has a `)` after
   * it, and the greedy rule the last `)`: the rule holds no `(` and no `)`
   * follows it.
   */
  lemma RuleIsLastParenthesized(r: string)
    requires LocateReason(r).Some?
    ensures var x := LocateReason(r).value;
      && (forall k :: x.open < k < x.close ==> r[k] != '(')
      && (forall k :: x.close < k < |r| ==> r[k] != ')')
  {
    var x := LocateReason(r).value;
    forall k: nat | x.open < k < x.close ensures r[k] != '(' {
      var y := ReasonSpan(x.sep, x.colon, k, x.close);
      assert r[k] == '(' ==> IsReasonMatch(r, y);
    }
    forall k: nat | x.close < k < |r| ensures r[k] != ')' {
      var y := ReasonSpan(x.sep, x.colon, x.open, k);
      assert r[k] == ')' ==> IsReasonMatch(r, y);
    }
  }

  /** The four captures of the reason pattern, unstripped. */
  datatype ReasonCaptures = ReasonCaptures(issueType: string, failureType: string, description: string, rule: string)

  /**
   * The text of each group of a match. Put back together with the
   * separator, the `:\s`, the parentheses and what follows the last `)`,
   * the four captures give back the reason.
   */
  function CapturesOf(r: string, x: ReasonSpan): (cap: ReasonCaptures)
    requires IsReasonMatch(r, x)
    ensures r == cap.issueType + r[x.sep..AfterSeparator(r, x.sep)] + cap.failureType + r[x.colon..x.colon + 2]
                 + cap.description + "(" + cap.rule + ")" + r[x.close + 1..]
  {
    CapturesTile(r, x);
    ReasonCaptures(r[..x.sep], r[AfterSeparator(r, x.sep)..x.colon], r[x.colon + 2..x.open], r[x.open + 1..x.close])
  }

  /** The groups of a match and the text between them tile the reason. */
  lemma CapturesTile(r: string, x: ReasonSpan)
    requires IsReasonMatch(r, x)
    ensures r == r[..x.sep] + r[x.sep..AfterSeparator(r, x.sep)] + r[AfterSeparator(r, x.sep)..x.colon] + r[x.colon..x.colon + 2]
                 + r[x.colon + 2..x.open] + "(" + r[x.open + 1..x.close] + ")" + r[x.close + 1..]
  {
    var a := AfterSeparator(r, x.sep);
    assert r[..a] == r[..x.sep] + r[x.sep..a];
    assert r[..x.colon] == r[..a] + r[a..x.colon];
    assert r[..x.colon + 2] == r[..x.colon] + r[x.colon..x.colon + 2];
    assert r[..x.open] == r[..x.colon + 2] + r[x.colon + 2..x.open];
    assert r[..x.open + 1] == r[..x.open] + "(";
    assert r[..x.close] == r[..x.open + 1] + r[x.open + 1..x.close];
    assert r[..x.close + 1] == r[..x.close] + ")";
    assert r == r[..x.close + 1] + r[x.close + 1..];
  }

  /**
   * `reason.match(...)` followed by `.captures`. The reason comes from the
   * structural match's `(.*)`, so it never holds a line feed. `None` is a
   * failed match, on which the converter's `.captures` raises.
   */
  function SplitReason(r: string): (cap: Option<ReasonCaptures>)
    requires NoNewline(r)
    ensures cap.None? <==> forall y :: !IsReasonMatch(r, y)
    ensures cap.Some? ==> forall k :: 0 <= k < |cap.value.issueType| ==> !IsRegexSpace(cap.value.issueType[k])
    ensures cap.Some? ==> forall k :: 0 <= k < |cap.value.failureType| - 1 ==>
      !(cap.value.failureType[k] == ':' && IsRegexSpace(cap.value.failureType[k + 1]))
    ensures cap.Some? ==> forall k :: 0 <= k < |cap.value.rule| ==> cap.value.rule[k] != '('
    ensures cap.Some? ==> exists x ::
      && IsReasonMatch(r, x)
      && (forall y :: IsReasonMatch(r, y) ==> TriedFirst(x, y))
      && cap.value == CapturesOf(r, x)
  {
    match LocateReason(r)
    case None => None
    case Some(x) =>
      CapturesAreLazyAndGreedy(r, x);
      Some(CapturesOf(r, x))
  }

  /** What the lazy and greedy groups of the first match imply for the captured text. */
  lemma CapturesAreLazyAndGreedy(r: string, x: ReasonSpan)
    requires LocateReason(r) == Some(x)
    ensures var cap := CapturesOf(r, x);
      && (forall k :: 0 <= k < |cap.issueType| ==> !IsRegexSpace(cap.issueType[k]))
      && (forall k :: 0 <= k < |cap.failureType| - 1 ==> !(cap.failureType[k] == ':' && IsRegexSpace(cap.failureType[k + 1])))
      && (forall k :: 0 <= k < |cap.rule| ==> cap.rule[k] != '(')
      && (forall k :: x.close < k < |r| ==> r[k] != ')')
  {
    IssueTypeCaptured(r, x);
    CheckNameCaptured(r, x);
    RuleCaptured(r, x);
    RuleIsLastParenthesized(r);
  }

  lemma IssueTypeCaptured(r: string, x: ReasonSpan)
    requires LocateReason(r) == Some(x)
    ensures var t := CapturesOf(r, x).issueType;
      forall k :: 0 <= k < |t| ==> !IsRegexSpace(t[k])
  {
    IssueTypeHasNoSpace(r);
  }

  lemma CheckNameCaptured(r: string, x: ReasonSpan)
    requires LocateReason(r) == Some(x)
    ensures var n := CapturesOf(r, x).failureType;
      forall k :: 0 <= k < |n| - 1 ==> !(n[k] == ':' && IsRegexSpace(n[k + 1]))
  {
    CheckNameHasNoColonSpace(r);
    NoColonSpaceSlice(r, AfterSeparator(r, x.sep), x.colon);
  }

  /** A stretch of `r` without `:\s`, cut out as a string of its own. */
  lemma NoColonSpaceSlice(r: string, p: nat, c: nat)
    requires p <= c <= |r|
    requires forall j :: p <= j < c ==> !ColonSpaceAt(r, j)
    ensures var n := r[p..c];
      forall k :: 0 <= k < |n| - 1 ==> !(n[k] == ':' && IsRegexSpace(n[k + 1]))
  {
    var n := r[p..c];
    forall k | 0 <= k < |n| - 1 ensures !(n[k] == ':' && IsRegexSpace(n[k + 1])) {
      assert n[k] == r[p + k] && n[k + 1] == r[p + k + 1];
      assert !ColonSpaceAt(r, p + k);
    }
  }

  lemma RuleCaptured(r: string, x: ReasonSpan)
    requires LocateReason(r) == Some(x)
    ensures var u := CapturesOf(r, x).rule;
      forall k :: 0 <= k < |u| ==> u[k] != '('
  {
    var u := CapturesOf(r, x).rule;
    RuleIsLastParenthesized(r);
    forall k | 0 <= k < |u| ensures u[k] != '(' {
      assert u[k] == r[x.open + 1 + k];
    }
  }

  /** Backtracking order is antisymmetric: two spans tried no later than each other are the same. */
  lemma TriedFirstAntisymmetric(x: ReasonSpan, y: ReasonSpan)
    requires TriedFirst(x, y) && TriedFirst(y, x)
    ensures x == y
  {
  }

  /** A reason laid out as SwiftLint writes it: `<type>: <check name>: <description> (<rule>)`. */
  function Formatted(t: string, name: string, desc: string, rule: string): string {
    t + ": " + name + ": " + desc + " (" + rule + ")"
  }

  /** The conditions under which a laid-out reason splits back into its parts. */
  predicate Splittable(t: string, name: string, desc: string, rule: string) {
    && NoNewline(t) && NoNewline(name) && NoNewline(desc) && NoNewline(rule)
    && (forall k :: 0 <= k < |t| ==> !IsRegexSpace(t[k]))
    && (forall k :: 0 <= k < |name| - 1 ==> !(name[k] == ':' && IsRegexSpace(name[k + 1])))
    && (forall k :: 0 <= k < |rule| ==> rule[k] != '(' && rule[k] != ')')
  }

  /** Where the groups of a laid-out reason end. */
  function FormattedSpan(t: string, name: string, desc: string, rule: string): ReasonSpan {
    var colon := |t| + 2 + |name|;
    var open := colon + 3 + |desc|;
    ReasonSpan(|t|, colon, open, open + |rule| + 1)
  }

  lemma FormattedMatches(t: string, name: string, desc: string, rule: string)
    ensures NoNewline(t) && NoNewline(name) && NoNewline(desc) && NoNewline(rule) ==>
      NoNewline(Formatted(t, name, desc, rule))
    ensures IsReasonMatch(Formatted(t, name, desc, rule), FormattedSpan(t, name, desc, rule))
  {
    var r := Formatted(t, name, desc, rule);
    var x := FormattedSpan(t, name, desc, rule);
    if NoNewline(t) && NoNewline(name) && NoNewline(desc) && NoNewline(rule) {
      forall k | 0 <= k < |r| ensures r[k] != '\n' {
        FormattedAt(t, name, desc, rule, k);
      }
    }
    FormattedAt(t, name, desc, rule, x.sep);
    FormattedAt(t, name, desc, rule, x.sep + 1);
    FormattedAt(t, name, desc, rule, x.colon);
    FormattedAt(t, name, desc, rule, x.colon + 1);
    FormattedAt(t, name, desc, rule, x.open);
    FormattedAt(t, name, desc, rule, x.close);
  }

  lemma FormattedTriedFirst(t: string, name: string, desc: string, rule: string, y: ReasonSpan)
    requires Splittable(t, name, desc, rule)
    requires IsReasonMatch(Formatted(t, name, desc, rule), y)
    ensures TriedFirst(FormattedSpan(t, name, desc, rule), y)
  {
    var r := Formatted(t, name, desc, rule);
    var x := FormattedSpan(t, name, desc, rule);
    forall k: nat | k < x.sep ensures !SeparatorAt(r, k) {
      FormattedAt(t, name, desc, rule, k);
      FormattedAt(t, name, desc, rule, k + 1);
    }
    assert x.sep <= y.sep;
    if y.sep == x.sep {
      FormattedAt(t, name, desc, rule, x.sep);
      forall j: nat | x.sep + 2 <= j < x.colon ensures !ColonSpaceAt(r, j) {
        FormattedAt(t, name, desc, rule, j);
        FormattedAt(t, name, desc, rule, j + 1);
      }
      assert x.colon <= y.colon;
      if y.colon == x.colon {
        FormattedAt(t, name, desc, rule, y.open);
      }
    }
  }

  /**
   * A reason in SwiftLint's layout splits back into its parts, as long as the
   * type has no whitespace, the check name no `:\s` and the rule no
   * parentheses. The description may hold anything but a line feed; its
   * capture keeps the space before `(`.
   */
  lemma SplitFormattedReason(t: string, name: string, desc: string, rule: string)
    requires Splittable(t, name, desc, rule)
    ensures NoNewline(Formatted(t, name, desc, rule))
    ensures SplitReason(Formatted(t, name, desc, rule)) == Some(ReasonCaptures(t, name, desc + " ", rule))
  {
    var r := Formatted(t, name, desc, rule);
    var x := FormattedSpan(t, name, desc, rule);
    FormattedLocated(t, name, desc, rule);
    FormattedCaptures(t, name, desc, rule);
    assert SplitReason(r) == Some(CapturesOf(r, x));
  }

  /** The groups of the laid-out match hold the reason's parts, the description with its trailing blank. */
  lemma FormattedCaptures(t: string, name: string, desc: string, rule: string)
    ensures IsReasonMatch(Formatted(t, name, desc, rule), FormattedSpan(t, name, desc, rule))
    ensures CapturesOf(Formatted(t, name, desc, rule), FormattedSpan(t, name, desc, rule))
      == ReasonCaptures(t, name, desc + " ", rule)
  {
    var r := Formatted(t, name, desc, rule);
    var x := FormattedSpan(t, name, desc, rule);
    FormattedMatches(t, name, desc, rule);
    FormattedAt(t, name, desc, rule, x.sep);
    FormattedParts(t, name, desc, rule);
    CapturesOfIs(r, x, t, name, desc + " ", rule);
  }

  /** The search picks the match that lays out the reason's parts. */
  lemma FormattedLocated(t: string, name: string, desc: string, rule: string)
    requires Splittable(t, name, desc, rule)
    ensures NoNewline(Formatted(t, name, desc, rule))
    ensures LocateReason(Formatted(t, name, desc, rule)) == Some(FormattedSpan(t, name, desc, rule))
  {
    var r := Formatted(t, name, desc, rule);
    var x := FormattedSpan(t, name, desc, rule);
    FormattedMatches(t, name, desc, rule);
    var z := LocateReason(r).value;
    FormattedTriedFirst(t, name, desc, rule, z);
    TriedFirstAntisymmetric(x, z);
  }

  /** The captures of the match `x`, given the text of each group. */
  lemma CapturesOfIs(r: string, x: ReasonSpan, a: string, b: string, c: string, d: string)
    requires IsReasonMatch(r, x)
    requires AfterSeparator(r, x.sep) == x.sep + 2
    requires r[..x.sep] == a && r[x.sep + 2..x.colon] == b && r[x.colon + 2..x.open] == c && r[x.open + 1..x.close] == d
    ensures CapturesOf(r, x) == ReasonCaptures(a, b, c, d)
  {
  }

  lemma FormattedParts(t: string, name: string, desc: string, rule: string)
    ensures var r := Formatted(t, name, desc, rule);
      var x := FormattedSpan(t, name, desc, rule);
      && r[..x.sep] == t
      && r[x.sep + 2..x.colon] == name
      && r[x.colon + 2..x.open] == desc + " "
      && r[x.open + 1..x.close] == rule
  {
    var r := Formatted(t, name, desc, rule);
    var x := FormattedSpan(t, name, desc, rule);
    forall k | 0 <= k < |t| ensures r[k] == t[k] {
      FormattedAt(t, name, desc, rule, k);
    }
    forall k | 0 <= k < |name| ensures r[x.sep + 2 + k] == name[k] {
      FormattedAt(t, name, desc, rule, x.sep + 2 + k);
    }
    var d := desc + " ";
    forall k | 0 <= k < |d| ensures r[x.colon + 2 + k] == d[k] {
      FormattedAt(t, name, desc, rule, x.colon + 2 + k);
    }
    forall k | 0 <= k < |rule| ensures r[x.open + 1 + k] == rule[k] {
      FormattedAt(t, name, desc, rule, x.open + 1 + k);
    }
  }

  /** The character at index `k` of a reason laid out as SwiftLint writes it. */
  lemma FormattedAt(t: string, name: string, desc: string, rule: string, k: nat)
    requires k < |Formatted(t, name, desc, rule)|
    ensures var r := Formatted(t, name, desc, rule);
      var C := |t| + 2 + |name|;
      var O := C + 3 + |desc|;
      && (k < |t| ==> r[k] == t[k])
      && (k == |t| ==> r[k] == ':')
      && (k == |t| + 1 ==> r[k] == ' ')
      && (|t| + 2 <= k < C ==> r[k] == name[k - |t| - 2])
      && (k == C ==> r[k] == ':')
      && (k == C + 1 ==> r[k] == ' ')
      && (C + 2 <= k < O - 1 ==> r[k] == desc[k - C - 2])
      && (k == O - 1 ==> r[k] == ' ')
      && (k == O ==> r[k] == '(')
      && (O < k < |r| - 1 ==> r[k] == rule[k - O - 1])
      && (k == |r| - 1 ==> r[k] == ')')
  {
  }
}
