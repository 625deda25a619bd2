/**
 * The action's `run`: convert the lines of a SwiftLint report, write the
 * result as the CodeQuality report, then evaluate it against the build's
 * fail conditions.
 *
 * The report file and the output file are I/O: the report enters as its
 * lines (each with its line feed, as `File#each` yields them) and the
 * written result is part of the outcome. The shell's `pwd` enters as the
 * text the command printed.
 */
module Action {
  import opened Wrappers
  import opened Text
  import opened Severities
  import opened LineMatch
  import opened Converter
  import opened Pipeline
  import opened Thresholds

  /**
   * How a run ends: the conversion raised before anything was written, or
   * the result was written and then evaluated.
   */
  datatype Outcome =
    | ConversionRaised(error: ConversionError)
    | Evaluated(written: seq<Option<Issue>>, notices: seq<Notice>, verdict: Verdict)

  method Run(report: seq<string>, prefix: string, shellPwd: string, digest: string -> string,
             conditions: map<string, int>) returns (outcome: Outcome)
    ensures var converted := ConvertReport(report, prefix, Strip(shellPwd), digest);
      && (converted.Failure? ==> outcome == ConversionRaised(converted.error))
      && (converted.Success? ==>
            && outcome.Evaluated?
            && outcome.written == converted.value
            && |outcome.written| == |KeepDiagnostics(report)|
            && outcome.verdict == Evaluate(converted.value, conditions)
            && (None in converted.value ==> outcome.notices == [])
            && (None !in converted.value ==> outcome.notices == Notices(Issues(converted.value), conditions)))
  {
    var pwd := Strip(shellPwd);
    var converted := ConvertReport(report, prefix, pwd, digest);
    if converted.Failure? {
      return ConversionRaised(converted.error);
    }
    var notices, verdict := HandleResult(converted.value, conditions);
    outcome := Evaluated(converted.value, notices, verdict);
  }

  /** A line too short to hold `.swift:` is no diagnostic. */
  lemma ShortLineIsNoDiagnostic(line: string)
    requires |line| < 7
    ensures MatchLine(line).None?
  {
    forall i: nat, e: nat ensures !MatchSpan(line, i, e) {
    }
  }

  /**
   * A kept line that is not a diagnostic (a blank line, say) leaves a nil
   * entry in the written result, and the evaluation then raises on it
   * whatever the fail conditions are.
   */
  lemma NonDiagnosticLineStopsEvaluation(report: seq<string>, prefix: string, pwd: string,
                                         digest: string -> string, conditions: map<string, int>)
    requires exists i :: 0 <= i < |report| && !MentionsThreshold(report[i]) && MatchLine(report[i]).None?
    requires ConvertReport(report, prefix, pwd, digest).Success?
    ensures None in ConvertReport(report, prefix, pwd, digest).value
    ensures Evaluate(ConvertReport(report, prefix, pwd, digest).value, conditions) == NilEntry
  {
    var i :| 0 <= i < |report| && !MentionsThreshold(report[i]) && MatchLine(report[i]).None?;
    var kept := KeepDiagnostics(report);
    assert report[i] in report;
    assert report[i] in kept;
    var j :| 0 <= j < |kept| && kept[j] == report[i];
    var written := ConvertReport(report, prefix, pwd, digest).value;
    assert LineToCodeClimate(kept[j], prefix, pwd, digest) == Success(written[j]);
    assert written[j] == None;
  }

  /**
   * An empty report passes the evaluation when no limit is negative: every
   * count is 0 and none exceeds its limit.
   */
  lemma EmptyReportPasses(prefix: string, pwd: string, digest: string -> string, conditions: map<string, int>)
    requires forall k :: k in conditions ==> conditions[k] >= 0
    ensures ConvertReport([], prefix, pwd, digest) == Success([])
    ensures Evaluate([], conditions) == Passed
  {
    EmptyReport(prefix, pwd, digest);
    WithinEveryLimit([], conditions);
  }

  /** A negative limit fails the build even on an empty report: a count of 0 exceeds it. */
  lemma NegativeLimitFailsEmptyReport(conditions: map<string, int>, s: Severity)
    requires s.Name() in conditions && conditions[s.Name()] < 0
    ensures Evaluate([], conditions) == UserError(ExceededMessage)
  {
    assert Exceeds(Issues([]), conditions, s);
  }
}
