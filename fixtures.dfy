/**
 * The sample diagnostic of the converter's test suite, worked through the
 * model: `/Users/apple/projects/Project/File.swift:20:5: error: Identifier
 * Name Violation: Variable name should be between 3 and 40 characters long:
 * 'p' (identifier_name)`, read with working directory
 * `/Users/apple/projects`.
 */
module Fixtures {
  import opened Wrappers
  import opened Text
  import opened Severities
  import opened LineMatch
  import opened ReasonMatch
  import opened Converter

  const SamplePwd := "/Users/apple/projects"
  const SampleRel := "/Project/File.swift"
  const SampleCheckName := "Identifier Name Violation"
  const SampleDescription := "Variable name should be between 3 and 40 characters long: 'p'"
  const SampleRule := "identifier_name"

  /** The sample line as the report file holds it, line feed included. */
  function SampleLine(): string {
    FormattedLine(SamplePwd + SampleRel, "20", "5",
                  Formatted("error", SampleCheckName, SampleDescription, SampleRule), "\n")
  }

  lemma LacksConcat(a: string, b: string, c: char)
    requires Lacks(a, c) && Lacks(b, c)
    ensures Lacks(a + b, c)
  {
  }

  /** A reason without `.` nowhere holds `.swift:`. */
  lemma NoDotNoSwiftTail(r: string)
    requires Lacks(r, '.')
    ensures forall k :: 0 <= k < |r| ==> !OccursAt(r, ".swift:", k)
  {
    forall k | 0 <= k < |r| ensures !OccursAt(r, ".swift:", k) {
      if k + 7 <= |r| {
        assert r[k..k + 7][0] == r[k];
      }
    }
  }

  lemma FormattedLacks(t: string, name: string, desc: string, rule: string, c: char)
    requires Lacks(t, c) && Lacks(name, c) && Lacks(desc, c) && Lacks(rule, c)
    requires c != ':' && c != ' ' && c != '(' && c != ')'
    ensures Lacks(Formatted(t, name, desc, rule), c)
  {
    LacksConcat(t, ": ", c);
    LacksConcat(t + ": ", name, c);
    LacksConcat(t + ": " + name, ": ", c);
    LacksConcat(t + ": " + name + ": ", desc, c);
    LacksConcat(t + ": " + name + ": " + desc, " (", c);
    LacksConcat(t + ": " + name + ": " + desc + " (", rule, c);
    LacksConcat(t + ": " + name + ": " + desc + " (" + rule, ")", c);
  }

  lemma SampleDescriptionLacks(c: char)
    requires c == '\n' || c == '.'
    ensures Lacks(SampleDescription, c)
  {
    LacksConcat("Variable name should be betw", "een 3 and 40 characters long: 'p'", c);
  }

  lemma SamplePathLacksNewline()
    ensures NoNewline(SamplePwd + SampleRel)
  {
    LacksConcat(SamplePwd, SampleRel, '\n');
  }

  lemma SampleSplittable()
    ensures Splittable("error", SampleCheckName, SampleDescription, SampleRule)
    ensures Stripped(SampleCheckName) && Stripped(SampleDescription)
  {
    SampleDescriptionLacks('\n');
    SampleCheckNameShape();
    SampleRuleShape();
    SampleDescriptionStripped();
  }

  lemma SampleCheckNameShape()
    ensures NoNewline(SampleCheckName) && Stripped(SampleCheckName)
    ensures forall k :: 0 <= k < |SampleCheckName| - 1 ==>
      !(SampleCheckName[k] == ':' && IsRegexSpace(SampleCheckName[k + 1]))
  {
    LacksConcat("Identifier ", "Name Violation", ':');
    LacksConcat("Identifier ", "Name Violation", '\n');
  }

  lemma SampleRuleShape()
    ensures NoNewline(SampleRule)
    ensures forall k :: 0 <= k < |SampleRule| ==> SampleRule[k] != '(' && SampleRule[k] != ')'
  {
  }

  lemma SampleDescriptionStripped()
    ensures Stripped(SampleDescription)
  {
    StrippedConcat("Variable name should be betw", "een 3 and 40 characters long: 'p'");
  }

  lemma StrippedConcat(a: string, b: string)
    requires a != [] && b != [] && !IsStripSpace(a[0]) && !IsStripSpace(b[|b| - 1])
    ensures Stripped(a + b)
  {
  }

  lemma SampleParsable()
    ensures Parsable(SamplePwd + SampleRel, "20", "5",
                     Formatted("error", SampleCheckName, SampleDescription, SampleRule), "\n")
  {
    var reason := Formatted("error", SampleCheckName, SampleDescription, SampleRule);
    SampleDescriptionLacks('\n');
    SampleDescriptionLacks('.');
    FormattedLacks("error", SampleCheckName, SampleDescription, SampleRule, '\n');
    FormattedLacks("error", SampleCheckName, SampleDescription, SampleRule, '.');
    NoDotNoSwiftTail(reason);
    SamplePathLacksNewline();
    assert (SamplePwd + SampleRel)[|SamplePwd + SampleRel| - 6..] == SampleRel[|SampleRel| - 6..];
    assert reason[0] == 'e';
  }

  /**
   * The sample line gives the record the test suite expects: check name
   * "Identifier Name Violation", the description without its rule, severity
   * critical, path `/Project/File.swift` behind the prefix, lines 20 to 20,
   * and the digest of the whole line as fingerprint.
   */
  lemma SampleLineConverts(prefix: string, digest: string -> string)
    ensures LineToCodeClimate(SampleLine(), prefix, SamplePwd, digest)
      == Success(Some(Issue("issue", "Identifier Name Violation",
                            "Variable name should be between 3 and 40 characters long: 'p'",
                            digest(SampleLine()), Critical,
                            Location(prefix + "/Project/File.swift", Lines(20, 20)))))
  {
    SampleLineLaidOut(prefix, digest);
    SampleLineNumber();
  }

  /** The sample line converts to the issue its parts describe. */
  lemma SampleLineLaidOut(prefix: string, digest: string -> string)
    ensures LineToCodeClimate(SampleLine(), prefix, SamplePwd, digest)
      == Success(Some(Issue(IssueKind, SampleCheckName, SampleDescription, digest(SampleLine()), Classify("error"),
                            Location(prefix + SampleRel, Lines(DecimalValue("20"), DecimalValue("20"))))))
  {
    SampleSplittable();
    SampleParsable();
    ConvertLaidOutLine(prefix, SamplePwd, SampleRel, "20", "5",
                       "error", SampleCheckName, SampleDescription, SampleRule, "\n", digest);
  }

  lemma SampleLineNumber()
    ensures DecimalValue("20") == 20
  {
  }
}
