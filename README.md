# SwiftLint to CodeQuality conversion, modelled in Dafny

The fastlane action `swiftlint_codequality` reads a SwiftLint report, line
by line, and turns it into a GitLab CodeQuality report. It drops the lines
where SwiftLint reports on its own warning threshold and converts every
other line. A line that is not a diagnostic becomes `nil` and stays in the
result. A diagnostic becomes an issue record with these fields:
- type `"issue"`;
- check name and description, stripped;
- an MD5 fingerprint of the whole line;
- severity "critical" for `error`, "minor" for `warning`, "info" otherwise;
- the location: the file path with the working directory taken out, behind
  a configurable prefix, and the line number as both begin and end.

The action writes the result, then counts the issues of each severity and
compares each count with its limit from the `fail_build_conditions` hash
(0 when a severity is missing). It reports every limit that is exceeded and
raises the user error "Severity limits where exceeded." when any is.

The model has one module per concern:
- `Text`: String#strip, `include?`, first-occurrence removal (`sub`),
  decimal digits.
- `LineMatch`: the structural pattern `(.*\.swift):(\d+):\d+:\s*(.*)`. It is
  a search proved to pick the match a backtracking regex engine picks: the
  leftmost start, then the longest file name.
- `ReasonMatch`: the reason pattern `(.*?):?\s(.*?):\s(.*)\((.*)\)`, with
  its lazy and greedy choices specified the same way.
- `Severities`: the three severities and the classification of issue types.
- `Converter`: `line_to_code_climate_object`.
- `Pipeline`: the select/map of `run`.
- `Thresholds`: `handle_result`, as an imperative method proved against a
  specification function.
- `Action`: `run` from end to end.
- `Fixtures`: the sample line of the test suite, worked through the model.

Where the code and its written description differ, the model follows the
code:
- The file name capture is greedy. A line holding `.swift:<n>:<n>:` twice
  takes the longest file name.
- A diagnostic whose reason the second pattern cannot split raises, since
  `captures` is sent to `nil`. It is not skipped. The raise ends the whole
  map, so no report is written.
- The working directory is removed at its first occurrence anywhere in the
  file name, not only at the start. No separator is inserted between the
  prefix and the rest of the path.
- A `nil` entry in the result makes `handle_result` raise on
  `nil[:severity]`. The model calls this verdict `NilEntry`.

## Model

| member | source | states |
|---|---|---|
| Severities.Severity.Name | lib/fastlane/plugin/swiftlint_codequality/actions/swiftlint_codequality_action.rb:134-138 | the report name of each severity is one of "critical", "minor", "info" |
| Severities.NameInjective | lib/fastlane/plugin/swiftlint_codequality/actions/swiftlint_codequality_action.rb:134-138 | distinct severities have distinct names, so a limit key names exactly one severity |
| Severities.Classify | lib/fastlane/plugin/swiftlint_codequality/actions/swiftlint_codequality_action.rb:37-44 | critical exactly for "error", minor exactly for "warning", info exactly for every other issue type |
| Text.Strip | lib/fastlane/plugin/swiftlint_codequality/actions/swiftlint_codequality_action.rb:48-49 | the result is an infix of the input with only strip-space cut off on each side, and it starts and ends with no strip-space |
| Text.StripPadded | lib/fastlane/plugin/swiftlint_codequality/actions/swiftlint_codequality_action.rb:48-49 | stripping a text padded with strip-space on both sides gives back the text when its own ends are not blank |
| Text.StripIdempotent | lib/fastlane/plugin/swiftlint_codequality/actions/swiftlint_codequality_action.rb:48-49 | stripping twice is stripping once |
| Text.FirstOccurrence | lib/fastlane/plugin/swiftlint_codequality/actions/swiftlint_codequality_action.rb:15 | the index found is an occurrence with none before it, and none means the pattern occurs nowhere after the start |
| Text.RemoveFirst | lib/fastlane/plugin/swiftlint_codequality/actions/swiftlint_codequality_action.rb:53 | `sub` with an empty replacement: the input is unchanged without an occurrence, and otherwise loses exactly its first occurrence |
| Text.RemoveFirstRestores | lib/fastlane/plugin/swiftlint_codequality/actions/swiftlint_codequality_action.rb:53 | putting the pattern back at the first occurrence restores the input |
| Text.RemoveFirstLeading | lib/fastlane/plugin/swiftlint_codequality/actions/swiftlint_codequality_action.rb:53 | a pattern at the head of the input is what is removed |
| Text.RemoveFirstEmpty | lib/fastlane/plugin/swiftlint_codequality/actions/swiftlint_codequality_action.rb:53 | removing the empty text changes nothing (an empty working directory) |
| Text.DecimalValue | lib/fastlane/plugin/swiftlint_codequality/actions/swiftlint_codequality_action.rb:55-56 | `to_i` of a run of digits is 0 exactly when every digit is `0` |
| Text.Decimal | lib/fastlane/plugin/swiftlint_codequality/actions/swiftlint_codequality_action.rb:55-56 | the reference numeral that `to_i` is checked against: non-empty, all digits and without a leading zero |
| Text.DecimalRoundTrip | lib/fastlane/plugin/swiftlint_codequality/actions/swiftlint_codequality_action.rb:55-56 | `to_i` of the numeral of n is n |
| Text.DecimalLeadingZero | lib/fastlane/plugin/swiftlint_codequality/actions/swiftlint_codequality_action.rb:55-56 | a leading zero does not change the value `to_i` reads |
| LineMatch.LocateFile | lib/fastlane/plugin/swiftlint_codequality/actions/swiftlint_codequality_action.rb:27 | the span found is a match of the pattern at the leftmost possible start, with the longest file name there; none means no match |
| LineMatch.MatchLine | lib/fastlane/plugin/swiftlint_codequality/actions/swiftlint_codequality_action.rb:27-31 | no match exactly when no span matches; otherwise the captures of the leftmost-longest match: the file name ends in ".swift" with no line feed, the line number is a digit run framed by colons, and the reason is the text from the first non-blank after the column number's colon up to the next line feed or the end |
| LineMatch.CapturesAt | lib/fastlane/plugin/swiftlint_codequality/actions/swiftlint_codequality_action.rb:31 | the captures read at a match have the shape of the match: file name through `.swift`, line number between the colons, reason after the column number and its blanks, up to the line's end |
| LineMatch.MatchFormattedLine | lib/fastlane/plugin/swiftlint_codequality/actions/swiftlint_codequality_action.rb:27-31 | a line in SwiftLint's layout `<path>:<line>:<col>: <reason>` gives back exactly its path, line number and reason |
| ReasonMatch.LocateReason | lib/fastlane/plugin/swiftlint_codequality/actions/swiftlint_codequality_action.rb:35 | the match found is a match, and the backtracking order tries it before every other match; none means no match |
| ReasonMatch.SplitReason | lib/fastlane/plugin/swiftlint_codequality/actions/swiftlint_codequality_action.rb:35 | none exactly when the pattern cannot match; otherwise the four captures are the groups of the match that backtracking tries before every other match, so the issue type has no blank, the check name holds no colon-blank, and the rule holds no opening parenthesis |
| ReasonMatch.CapturesOf | lib/fastlane/plugin/swiftlint_codequality/actions/swiftlint_codequality_action.rb:35 | the four captures, put back together with the separator, the colon-blank, the parentheses and the text after the closing parenthesis, give back the reason |
| ReasonMatch.CapturesAreLazyAndGreedy | lib/fastlane/plugin/swiftlint_codequality/actions/swiftlint_codequality_action.rb:35 | the captures of the match the search picks carry the lazy and greedy shapes of the pattern: no blank in the issue type, no colon-blank in the check name, no `(` in the rule and no `)` after the rule's closing parenthesis |
| ReasonMatch.TriedFirstAntisymmetric | lib/fastlane/plugin/swiftlint_codequality/actions/swiftlint_codequality_action.rb:35 | two matches each tried before the other are the same, so the chosen match is unique |
| ReasonMatch.SplitFormattedReason | lib/fastlane/plugin/swiftlint_codequality/actions/swiftlint_codequality_action.rb:33-35 | the reason `<type>: <check name>: <description> (<rule>)` splits back into its parts, the description keeping its trailing blank |
| Converter.IssuePath | lib/fastlane/plugin/swiftlint_codequality/actions/swiftlint_codequality_action.rb:53 | the path starts with the prefix, followed by the file name minus the first occurrence of the working directory, or the whole file name when there is none |
| Converter.IssuePathUnderWorkingDirectory | lib/fastlane/plugin/swiftlint_codequality/actions/swiftlint_codequality_action.rb:53 | a file under the working directory gets the prefix followed by its path relative to that directory |
| Converter.LineToCodeClimate | lib/fastlane/plugin/swiftlint_codequality/actions/swiftlint_codequality_action.rb:26-60 | nil exactly when the structural match fails; an error carrying the line exactly when the reason does not split; otherwise type "issue", the digest of the line, the severity of the issue type, stripped check name and description, the prefixed path, and begin = end = the line number |
| Converter.PlacementOnlyMovesThePath | lib/fastlane/plugin/swiftlint_codequality/actions/swiftlint_codequality_action.rb:46-59 | the prefix and the working directory change only the path of the record: the outcome and every other field stay the same |
| Converter.FingerprintOfLineAlone | lib/fastlane/plugin/swiftlint_codequality/actions/swiftlint_codequality_action.rb:50 | the fingerprint is the digest of the whole line, whatever the prefix and working directory |
| Converter.ConvertLaidOutLine | lib/fastlane/plugin/swiftlint_codequality/actions/swiftlint_codequality_action.rb:26-60 | a diagnostic in SwiftLint's layout, under the working directory, converts to the record its parts describe |
| Converter.StrippedTexts | lib/fastlane/plugin/swiftlint_codequality/actions/swiftlint_codequality_action.rb:48-49 | strip leaves a bare check name alone and takes the blank off a description captured with its trailing blank |
| Fixtures.SampleLineConverts | spec/swiftlint_codequality_action_spec.rb:19-31 | the test suite's sample line, read in `/Users/apple/projects`, gives the expected record: "Identifier Name Violation", its description, critical, `/Project/File.swift`, lines 20 to 20 |
| Pipeline.MentionsThreshold | lib/fastlane/plugin/swiftlint_codequality/actions/swiftlint_codequality_action.rb:15 | a line mentions the threshold exactly when the marker occurs in it somewhere |
| Pipeline.KeepDiagnostics | lib/fastlane/plugin/swiftlint_codequality/actions/swiftlint_codequality_action.rb:14-15 | a line is kept exactly when it is an input line that does not mention the threshold; no more lines come out than go in |
| Pipeline.KeepDiagnosticsAppend | lib/fastlane/plugin/swiftlint_codequality/actions/swiftlint_codequality_action.rb:14-15 | selecting from two concatenated reports is selecting from each and concatenating, so the order is kept |
| Pipeline.KeepDiagnosticsIdentity | lib/fastlane/plugin/swiftlint_codequality/actions/swiftlint_codequality_action.rb:14-15 | a report without threshold lines passes the select unchanged |
| Pipeline.KeepDiagnosticsIdempotent | lib/fastlane/plugin/swiftlint_codequality/actions/swiftlint_codequality_action.rb:14-15 | selecting twice is selecting once |
| Pipeline.Collect | lib/fastlane/plugin/swiftlint_codequality/actions/swiftlint_codequality_action.rb:16-17 | a map whose block may raise: all values in order when nothing raises, otherwise the error of the first entry that raises |
| Pipeline.CollectAppend | lib/fastlane/plugin/swiftlint_codequality/actions/swiftlint_codequality_action.rb:16-17 | mapping a concatenation without a raise maps each part and concatenates |
| Pipeline.CollectAllSuccess | lib/fastlane/plugin/swiftlint_codequality/actions/swiftlint_codequality_action.rb:16-17 | when no entry raises, the map delivers exactly the values, in order |
| Pipeline.MapCollect | lib/fastlane/plugin/swiftlint_codequality/actions/swiftlint_codequality_action.rb:16-17 | a block applied to each element: succeeds exactly when no application raises, with each value in its place; otherwise the error of the first application that raises |
| Pipeline.ConvertAll | lib/fastlane/plugin/swiftlint_codequality/actions/swiftlint_codequality_action.rb:16-17 | one entry per line, each the conversion of its line, nil entries kept; the error is the one of the first line whose conversion raises |
| Pipeline.ConvertReport | lib/fastlane/plugin/swiftlint_codequality/actions/swiftlint_codequality_action.rb:13-17 | on success, one entry per line kept by the select, entry i the conversion of kept line i; on failure, the error of the first kept line whose conversion raises |
| Pipeline.EmptyReport | spec/swiftlint_codequality_action_spec.rb:6-17 | an empty report converts to the empty result `[]` |
| Pipeline.OneEntryPerLine | spec/swiftlint_codequality_action_spec.rb:33-46 | without threshold lines the result has as many entries as the report has lines, entry i converted from line i |
| Thresholds.Limit | lib/fastlane/plugin/swiftlint_codequality/actions/swiftlint_codequality_action.rb:63-65 | `fetch` with default 0: the condition under the severity's name, or 0 when there is none |
| Thresholds.LimitUpdate | lib/fastlane/plugin/swiftlint_codequality/actions/swiftlint_codequality_action.rb:63-65 | setting the condition of one severity changes that severity's limit and no other |
| Thresholds.Count | lib/fastlane/plugin/swiftlint_codequality/actions/swiftlint_codequality_action.rb:67-69 | a severity's count is at most the number of issues |
| Thresholds.CountAppend | lib/fastlane/plugin/swiftlint_codequality/actions/swiftlint_codequality_action.rb:67-69 | counting over two concatenated results adds the counts |
| Thresholds.CountsPartition | lib/fastlane/plugin/swiftlint_codequality/actions/swiftlint_codequality_action.rb:67-69 | the three counts add up to the number of issues |
| Thresholds.Issues | lib/fastlane/plugin/swiftlint_codequality/actions/swiftlint_codequality_action.rb:67-69 | a result without nil entries holds exactly these issues, in order |
| Thresholds.NoticeFor | lib/fastlane/plugin/swiftlint_codequality/actions/swiftlint_codequality_action.rb:73-84 | a severity gives one notice with its limit and count exactly when its count exceeds its limit, and none otherwise |
| Thresholds.Notices | lib/fastlane/plugin/swiftlint_codequality/actions/swiftlint_codequality_action.rb:73-84 | there is a notice for a severity exactly when its limit is exceeded, each with the true limit and count, critical before minor before info |
| Thresholds.Evaluate | lib/fastlane/plugin/swiftlint_codequality/actions/swiftlint_codequality_action.rb:62-89 | raises on a nil entry exactly when there is one; passes exactly when no severity's count exceeds its limit; otherwise fails with "Severity limits where exceeded." |
| Thresholds.WithinEveryLimit | lib/fastlane/plugin/swiftlint_codequality/actions/swiftlint_codequality_action.rb:73-84 | the three checks cover every severity |
| Thresholds.HandleResult | lib/fastlane/plugin/swiftlint_codequality/actions/swiftlint_codequality_action.rb:62-89 | the limits, counts and `violations` flag give the evaluation's verdict and exactly its notices, and the build fails exactly when a notice was given |
| Thresholds.FixtureCountsEveryIssue | spec/swiftlint_codequality_action_spec.rb:48-66 | four critical, two minor and two info issues make a result of eight entries |
| Thresholds.FixtureWithinGenerousLimits | spec/swiftlint_codequality_action_spec.rb:3 | that result passes limits of 1000 for each severity |
| Thresholds.ZeroLimitFails | spec/swiftlint_codequality_action_spec.rb:68-108 | a limit of 0 for a severity with issues fails the build, with a notice naming that severity and its count |
| Thresholds.NoConditionsAllowNothing | lib/fastlane/plugin/swiftlint_codequality/actions/swiftlint_codequality_action.rb:63-65 | with no fail conditions, every limit is 0 and the build passes only on a result with no entries |
| Action.Run | lib/fastlane/plugin/swiftlint_codequality/actions/swiftlint_codequality_action.rb:7-24 | a conversion error ends the run before anything is written; otherwise the converted result is written, one entry per kept line, and evaluated with its notices and verdict |
| Action.ShortLineIsNoDiagnostic | lib/fastlane/plugin/swiftlint_codequality/actions/swiftlint_codequality_action.rb:27-30 | a line shorter than `.swift:` (a blank line, say) has no structural match |
| Action.NonDiagnosticLineStopsEvaluation | lib/fastlane/plugin/swiftlint_codequality/actions/swiftlint_codequality_action.rb:62-69 | a kept line that is no diagnostic leaves a nil entry in the result, and the evaluation raises on it under any fail conditions |
| Action.EmptyReportPasses | spec/swiftlint_codequality_action_spec.rb:6-17 | an empty report gives `[]` and passes any fail conditions without a negative limit |
| Action.NegativeLimitFailsEmptyReport | lib/fastlane/plugin/swiftlint_codequality/actions/swiftlint_codequality_action.rb:63-84 | a negative limit fails the build even on an empty report |

## Left out

- Reading the report file, writing the JSON file and the shell call for
  `pwd`: the report enters as its lines, the written result is part of the
  outcome, and `pwd` is the command's output, stripped as the action does.
- The JSON serialisation. The record keeps its fields in the order the
  report writes them: type, check_name, description, fingerprint,
  severity, location.
- MD5: the fingerprint is an opaque function `digest` of the whole line.
- The `UI.message`, `UI.success` and `UI.important` texts. The limit
  notices are kept as records of severity, limit and count.
- The action's metadata: description, authors, details, options and
  platform support. The lane-runner test is left out with them.
- Fail conditions that are not integers, and the symbol keys of the hash:
  limits are integers keyed by the severity's name.
- A general regular-expression engine: only the two patterns of the action
  are modelled.
- ReasonMatch.SplitReason: requires a reason without a line feed. Every
  reason the structural match captures has none, because `.` does not
  match a line feed.
- Ruby strings are sequences of characters: no encoding, and no invalid
  byte sequences.
