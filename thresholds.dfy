/**
 * `handle_result`: count the issues of each severity, compare each count
 * with its limit from the build's fail conditions (0 when the condition is
 * missing), report every limit that is exceeded, and fail the build when
 * any is.
 */
module Thresholds {
  import opened Wrappers
  import opened Severities
  import opened Converter

  /** The message of the user error that fails the build, spelled as the action spells it. */
  const ExceededMessage := "Severity limits where exceeded."

  /** One "issue limit exceeded" notice: the severity, its limit and its count. */
  datatype Notice = LimitExceeded(severity: Severity, limit: int, count: nat)

  /**
   * How the evaluation ends: it passes, it raises the user error that fails
   * the build, or it raises on a nil entry of the result (`nil[:severity]`).
   */
  datatype Verdict = Passed | UserError(message: string) | NilEntry

  /** The order in which the limits are checked and reported. */
  function Rank(s: Severity): nat {
    match s
    case Critical => 0
    case Minor => 1
    case Info => 2
  }

  /**
   * `fail_build_conditions.fetch(severity.to_sym, 0)`. Conditions are keyed
   * by the severity's name, the symbol's text.
   */
  function Limit(conditions: map<string, int>, s: Severity): (n: int)
    ensures s.Name() in conditions ==> n == conditions[s.Name()]
    ensures s.Name() !in conditions ==> n == 0
  {
    if s.Name() in conditions then conditions[s.Name()] else 0
  }

  /** Setting the condition of one severity changes its limit and no other. */
  lemma LimitUpdate(conditions: map<string, int>, t: Severity, v: int, s: Severity)
    ensures Limit(conditions[t.Name() := v], s) == if s == t then v else Limit(conditions, s)
  {
    if s != t {
      if s.Name() == t.Name() {
        NameInjective(s, t);
      }
    }
  }

  /** `result.select { |issue| issue[:severity] == s }.length`. */
  function Count(issues: seq<Issue>, s: Severity): (n: nat)
    ensures n <= |issues|
  {
    if issues == [] then 0
    else (if issues[0].severity == s then 1 else 0) + Count(issues[1..], s)
  }

  lemma {:induction false} CountAppend(a: seq<Issue>, b: seq<Issue>, s: Severity)
    ensures Count(a + b, s) == Count(a, s) + Count(b, s)
    decreases |a|
  {
    if a == [] {
      assert a + b == b;
    } else {
      assert (a + b)[1..] == a[1..] + b;
      CountAppend(a[1..], b, s);
    }
  }

  /** Every issue has exactly one of the three severities, so the three counts add up to all issues. */
  lemma {:induction false} CountsPartition(issues: seq<Issue>)
    ensures Count(issues, Critical) + Count(issues, Minor) + Count(issues, Info) == |issues|
    decreases |issues|
  {
    if issues != [] {
      CountsPartition(issues[1..]);
    }
  }

  /** The issues of a result without nil entries. */
  function Issues(result: seq<Option<Issue>>): (issues: seq<Issue>)
    requires None !in result
    ensures |issues| == |result|
    ensures forall i :: 0 <= i < |result| ==> result[i] == Some(issues[i])
  {
    if result == [] then []
    else
      assert result[0] in result;
      assert forall x :: x in result[1..] ==> x in result;
      [result[0].value] + Issues(result[1..])
  }

  /** The count for `s` strictly exceeds its limit. */
  predicate Exceeds(issues: seq<Issue>, conditions: map<string, int>, s: Severity) {
    Count(issues, s) > Limit(conditions, s)
  }

  /** The notices the evaluation gives, critical first, then minor, then info. */
  function Notices(issues: seq<Issue>, conditions: map<string, int>): (ns: seq<Notice>)
    ensures forall n :: n in ns ==>
      n.count == Count(issues, n.severity) && n.limit == Limit(conditions, n.severity) && n.count > n.limit
    ensures forall s: Severity :: Exceeds(issues, conditions, s) <==> exists n :: n in ns && n.severity == s
    ensures forall i, j :: 0 <= i < j < |ns| ==> Rank(ns[i].severity) < Rank(ns[j].severity)
  {
    NoticeFor(issues, conditions, Critical) + NoticeFor(issues, conditions, Minor) + NoticeFor(issues, conditions, Info)
  }

  /** The notice for one severity: one when its limit is exceeded, none otherwise. */
  function NoticeFor(issues: seq<Issue>, conditions: map<string, int>, s: Severity): (ns: seq<Notice>)
    ensures |ns| <= 1
    ensures ns != [] <==> Exceeds(issues, conditions, s)
    ensures forall n :: n in ns ==> n == LimitExceeded(s, Limit(conditions, s), Count(issues, s))
  {
    if Exceeds(issues, conditions, s) then [LimitExceeded(s, Limit(conditions, s), Count(issues, s))] else []
  }

  /** The outcome of the evaluation. */
  function Evaluate(result: seq<Option<Issue>>, conditions: map<string, int>): (v: Verdict)
    ensures v == NilEntry <==> None in result
    ensures v == Passed ==> None !in result && forall s: Severity :: !Exceeds(Issues(result), conditions, s)
    ensures None !in result && (forall s: Severity :: !Exceeds(Issues(result), conditions, s)) ==> v == Passed
    ensures v.UserError? ==> v.message == ExceededMessage
  {
    if None in result then NilEntry
    else
      var issues := Issues(result);
      if Exceeds(issues, conditions, Critical) || Exceeds(issues, conditions, Minor) || Exceeds(issues, conditions, Info)
      then
        assert !(forall s: Severity :: !Exceeds(Issues(result), conditions, s));
        UserError(ExceededMessage)
      else
        WithinEveryLimit(issues, conditions);
        Passed
  }

  /** The three checks cover every severity. */
  lemma WithinEveryLimit(issues: seq<Issue>, conditions: map<string, int>)
    requires !Exceeds(issues, conditions, Critical)
    requires !Exceeds(issues, conditions, Minor)
    requires !Exceeds(issues, conditions, Info)
    ensures forall s: Severity :: !Exceeds(issues, conditions, s)
  {
    forall s: Severity ensures !Exceeds(issues, conditions, s) {
      match s
      case Critical =>
      case Minor =>
      case Info =>
    }
  }

  /**
   * The evaluator as the action runs it: limits, counts, then a
   * `violations` flag set by each of three checks in turn.
   */
  method HandleResult(result: seq<Option<Issue>>, conditions: map<string, int>) returns (notices: seq<Notice>, verdict: Verdict)
    ensures verdict == Evaluate(result, conditions)
    ensures None in result ==> notices == []
    ensures None !in result ==> notices == Notices(Issues(result), conditions)
    ensures verdict.UserError? <==> notices != []
  {
    if None in result {
      return [], NilEntry;
    }
    var issues := Issues(result);
    var criticalLimit := Limit(conditions, Critical);
    var minorLimit := Limit(conditions, Minor);
    var infoLimit := Limit(conditions, Info);

    var criticalCount := Count(issues, Critical);
    var minorCount := Count(issues, Minor);
    var infoCount := Count(issues, Info);

    notices := [];
    var violations := false;
    if criticalCount > criticalLimit {
      notices := notices + [LimitExceeded(Critical, criticalLimit, criticalCount)];
      violations := true;
    }
    assert notices == NoticeFor(issues, conditions, Critical);
    if minorCount > minorLimit {
      notices := notices + [LimitExceeded(Minor, minorLimit, minorCount)];
      violations := true;
    }
    assert notices == NoticeFor(issues, conditions, Critical) + NoticeFor(issues, conditions, Minor);
    if infoCount > infoLimit {
      notices := notices + [LimitExceeded(Info, infoLimit, infoCount)];
      violations := true;
    }
    assert notices == Notices(issues, conditions);
    assert violations <==> notices != [];
    verdict := if violations then UserError(ExceededMessage) else Passed;
  }

  /** The fail conditions of the test suite: a limit of 1000 for each severity. */
  const GenerousConditions: map<string, int> := map["critical" := 1000, "minor" := 1000, "info" := 1000]

  /** Four critical, two minor and two info issues are eight issues: the counts cover the result. */
  lemma FixtureCountsEveryIssue(result: seq<Option<Issue>>)
    requires None !in result
    requires Count(Issues(result), Critical) == 4
    requires Count(Issues(result), Minor) == 2
    requires Count(Issues(result), Info) == 2
    ensures |result| == 8
  {
    CountsPartition(Issues(result));
  }

  /** Four critical, two minor and two info issues stay within limits of 1000. */
  lemma FixtureWithinGenerousLimits(result: seq<Option<Issue>>)
    requires None !in result
    requires Count(Issues(result), Critical) == 4
    requires Count(Issues(result), Minor) == 2
    requires Count(Issues(result), Info) == 2
    ensures Evaluate(result, GenerousConditions) == Passed
  {
  }

  /**
   * Setting one severity's limit to 0 fails the build as soon as there is
   * an issue of that severity, and the notice names that severity.
   */
  lemma ZeroLimitFails(result: seq<Option<Issue>>, conditions: map<string, int>, s: Severity)
    requires None !in result
    requires Count(Issues(result), s) > 0
    ensures Evaluate(result, conditions[s.Name() := 0]) == UserError(ExceededMessage)
    ensures LimitExceeded(s, 0, Count(Issues(result), s)) in Notices(Issues(result), conditions[s.Name() := 0])
  {
    var issues := Issues(result);
    assert Exceeds(issues, conditions[s.Name() := 0], s);
    var ns := Notices(issues, conditions[s.Name() := 0]);
    var n :| n in ns && n.severity == s;
  }

  /** Without fail conditions every limit is 0: the build passes only when there is no issue at all. */
  lemma NoConditionsAllowNothing(result: seq<Option<Issue>>)
    requires None !in result
    ensures Evaluate(result, map[]) == Passed <==> result == []
  {
    var issues := Issues(result);
    CountsPartition(issues);
    if result != [] {
      assert issues[0].severity == Critical || issues[0].severity == Minor || issues[0].severity == Info;
      assert Exceeds(issues, map[], Critical) || Exceeds(issues, map[], Minor) || Exceeds(issues, map[], Info);
    }
  }
}
