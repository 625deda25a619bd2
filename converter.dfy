/**
 * `line_to_code_climate_object`: one line of SwiftLint output becomes one
 * CodeQuality issue, nothing (the line is not a diagnostic), or an error
 * (the line is a diagnostic whose reason the second pattern cannot split).
 *
 * The MD5 fingerprint is a foreign hash and enters as the parameter
 * `digest`; the working directory enters as `pwd`, already stripped.
 */
module Converter {
  import opened Wrappers
  import opened Text
  import opened Severities
  import opened LineMatch
  import opened ReasonMatch

  /** The `type` every record carries. */
  const IssueKind := "issue"

  /** `lines: {begin, end}`. */
  datatype Lines = Lines(begin: nat, end: nat)

  /** `location: {path, lines}`. */
  datatype Location = Location(path: string, lines: Lines)

  /**
   * One CodeQuality record, its fields in the order the report lists them:
   * type, check_name, description, fingerprint, severity, location.
   */
  datatype Issue = Issue(
    kind: string,
    checkName: string,
    description: string,
    fingerprint: string,
    severity: Severity,
    location: Location)

  /**
   * The structural match succeeded but the reason match did not, so
   * `.captures` is sent to `nil` and the conversion raises.
   */
  datatype ConversionError = ReasonMismatch(line: string)

  /** `prefix + filename.sub(pwd, '')`: the first occurrence of `pwd`, wherever it is, goes. */
  function IssuePath(prefix: string, filename: string, pwd: string): (path: string)
    ensures |prefix| <= |path| && path[..|prefix|] == prefix
    ensures (forall k :: !OccursAt(filename, pwd, k)) ==> path == prefix + filename
    ensures forall k: nat :: OccursAt(filename, pwd, k) && (forall j: nat :: j < k ==> !OccursAt(filename, pwd, j)) ==>
      path == prefix + filename[..k] + filename[k + |pwd|..]
  {
    var rest := RemoveFirst(filename, pwd);
    assert (prefix + rest)[..|prefix|] == prefix;
    prefix + rest
  }

  /** A working directory at the head of the file name is cut off, and only it. */
  lemma IssuePathUnderWorkingDirectory(prefix: string, pwd: string, rel: string)
    ensures IssuePath(prefix, pwd + rel, pwd) == prefix + rel
  {
    assert (pwd + rel)[..|pwd|] == pwd;
    RemoveFirstLeading(pwd + rel, pwd);
    assert (pwd + rel)[|pwd|..] == rel;
  }

  /**
   * The converter. `None` is the `return` of a line without the structural
   * match; such a line is kept in the result as a nil entry by the caller.
   */
  function LineToCodeClimate(line: string, prefix: string, pwd: string, digest: string -> string): (r: Result<Option<Issue>, ConversionError>)
    ensures r == Success(None) <==> MatchLine(line).None?
    ensures r.Failure? <==> MatchLine(line).Some? && SplitReason(MatchLine(line).value.reason).None?
    ensures r.Failure? ==> r.error == ReasonMismatch(line)
    ensures r.Success? && r.value.Some? ==>
      var m := MatchLine(line).value;
      var cap := SplitReason(m.reason).value;
      var issue := r.value.value;
      && issue.kind == IssueKind
      && issue.fingerprint == digest(line)
      && issue.severity == Classify(cap.issueType)
      && Stripped(issue.checkName) && Stripped(issue.description)
      && issue.checkName == Strip(cap.failureType)
      && issue.description == Strip(cap.description)
      && issue.location.path == IssuePath(prefix, m.filename, pwd)
      && issue.location.lines.begin == issue.location.lines.end == DecimalValue(m.start)
  {
    match MatchLine(line)
    case None => Success(None)
    case Some(m) =>
      match SplitReason(m.reason)
      case None => Failure(ReasonMismatch(line))
      case Some(cap) =>
        var n := DecimalValue(m.start);
        Success(Some(Issue(
          IssueKind,
          Strip(cap.failureType),
          Strip(cap.description),
          digest(line),
          Classify(cap.issueType),
          Location(IssuePath(prefix, m.filename, pwd), Lines(n, n)))))
  }

  /**
   * Prefix and working directory shape the path and nothing else: the
   * outcome, the fingerprint, the severity, the texts and the line number
   * are the same whatever they are.
   */
  lemma PlacementOnlyMovesThePath(line: string, prefix1: string, pwd1: string, prefix2: string, pwd2: string, digest: string -> string)
    ensures var r1 := LineToCodeClimate(line, prefix1, pwd1, digest);
      var r2 := LineToCodeClimate(line, prefix2, pwd2, digest);
      && r1.Success? == r2.Success?
      && (r1.Failure? ==> r1 == r2)
      && (r1.Success? ==> r1.value.Some? == r2.value.Some?)
      && (r1.Success? && r1.value.Some? ==>
            var i1 := r1.value.value;
            var i2 := r2.value.value;
            i1.(location := i2.location) == i2 && i1.location.lines == i2.location.lines)
  {
  }

  /** Equal lines give equal fingerprints, whatever the prefix and the working directory. */
  lemma FingerprintOfLineAlone(line: string, prefix1: string, pwd1: string, prefix2: string, pwd2: string, digest: string -> string)
    requires LineToCodeClimate(line, prefix1, pwd1, digest).Success?
    requires LineToCodeClimate(line, prefix1, pwd1, digest).value.Some?
    ensures LineToCodeClimate(line, prefix2, pwd2, digest).Success?
    ensures LineToCodeClimate(line, prefix2, pwd2, digest).value.Some?
    ensures LineToCodeClimate(line, prefix2, pwd2, digest).value.value.fingerprint
         == LineToCodeClimate(line, prefix1, pwd1, digest).value.value.fingerprint
         == digest(line)
  {
  }

  /**
   * A diagnostic in SwiftLint's layout,
   * `<pwd><rel>:<line>:<col>: <type>: <check name>: <description> (<rule>)`,
   * converts to the issue its parts describe: the check name and the
   * description come back unchanged when they carry no surrounding
   * whitespace, and the path loses exactly the working directory.
   */
  lemma ConvertLaidOutLine(
    prefix: string, pwd: string, rel: string, ln: string, col: string,
    t: string, name: string, desc: string, rule: string, terminator: string,
    digest: string -> string)
    requires Parsable(pwd + rel, ln, col, Formatted(t, name, desc, rule), terminator)
    requires Splittable(t, name, desc, rule)
    requires Stripped(name) && Stripped(desc)
    ensures var line := FormattedLine(pwd + rel, ln, col, Formatted(t, name, desc, rule), terminator);
      LineToCodeClimate(line, prefix, pwd, digest)
        == Success(Some(Issue(IssueKind, name, desc, digest(line), Classify(t),
                              Location(prefix + rel, Lines(DecimalValue(ln), DecimalValue(ln))))))
  {
    var reason := Formatted(t, name, desc, rule);
    var line := FormattedLine(pwd + rel, ln, col, reason, terminator);
    MatchFormattedLine(pwd + rel, ln, col, reason, terminator);
    SplitFormattedReason(t, name, desc, rule);
    ConvertCaptured(line, prefix, pwd, rel, ln, reason, ReasonCaptures(t, name, desc + " ", rule), digest);
    StrippedTexts(name, desc);
    IssuePathUnderWorkingDirectory(prefix, pwd, rel);
  }

  /** What String#strip leaves of a check name and of a description with its trailing blank. */
  lemma StrippedTexts(name: string, desc: string)
    requires Stripped(name) && Stripped(desc)
    ensures Strip(name) == name && Strip(desc + " ") == desc
  {
    StripBare(name);
    StripDropsTrailingBlank(desc);
  }

  lemma StripDropsTrailingBlank(t: string)
    requires Stripped(t)
    ensures Strip(t + " ") == t
  {
    StripPadded("", t, " ");
    assert "" + t + " " == t + " ";
  }

  /** The record built from captures already known. */
  lemma ConvertCaptured(line: string, prefix: string, pwd: string, rel: string, ln: string, reason: string,
                        cap: ReasonCaptures, digest: string -> string)
    requires MatchLine(line) == Some(Captures(pwd + rel, ln, reason))
    requires NoNewline(reason) && SplitReason(reason) == Some(cap)
    ensures AllDigits(ln)
    ensures LineToCodeClimate(line, prefix, pwd, digest)
        == Success(Some(Issue(IssueKind, Strip(cap.failureType), Strip(cap.description), digest(line), Classify(cap.issueType),
                              Location(IssuePath(prefix, pwd + rel, pwd), Lines(DecimalValue(ln), DecimalValue(ln))))))
  {
  }
}
