/** The three severities a CodeQuality issue can carry, and how SwiftLint's issue type maps onto them. */
module Severities {

  datatype Severity = Critical | Minor | Info {

    /** The string the report carries for this severity (the constants of the Severity class). */
    function Name(): (n: string)
      ensures n in {"critical", "minor", "info"}
    {
      match this
      case Critical => "critical"
      case Minor => "minor"
      case Info => "info"
    }
  }

  /** Distinct severities have distinct names, so a name identifies its severity. */
  lemma NameInjective(a: Severity, b: Severity)
    requires a.Name() == b.Name()
    ensures a == b
  {
  }

  /**
   * The `case issue_type` of the converter: "error" is critical, "warning"
   * is minor, and every other issue type, the empty one included, is info.
   */
  function Classify(issueType: string): (s: Severity)
    ensures s == Critical <==> issueType == "error"
    ensures s == Minor <==> issueType == "warning"
    ensures s == Info <==> issueType != "error" && issueType != "warning"
  {
    if issueType == "error" then Critical
    else if issueType == "warning" then Minor
    else Info
  }
}
