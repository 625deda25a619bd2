/**
 * The conversion pipeline of the action's `run`: the report's lines, minus
 * the ones SwiftLint writes about its own warning threshold, each mapped
 * through the converter in order. A line the converter cannot handle stops
 * the whole map, as the exception it raises does.
 */
module Pipeline {
  import opened Wrappers
  import opened Text
  import opened Converter

  /** The text that marks SwiftLint's own summary line about its warning threshold. */
  const ThresholdMarker := "Warning Threshold Violation"

  /** `l.include?("Warning Threshold Violation")`: the marker occurs somewhere in the line. */
  predicate MentionsThreshold(line: string): (b: bool)
    ensures b <==> exists k :: OccursAt(line, ThresholdMarker, k)
  {
    FirstOccurrence(line, ThresholdMarker, 0).Some?
  }

  /** The `select` of the pipeline: the lines that do not mention the threshold, in their order. */
  function KeepDiagnostics(lines: seq<string>): (kept: seq<string>)
    ensures |kept| <= |lines|
    ensures forall l :: l in kept <==> l in lines && !MentionsThreshold(l)
  {
    if lines == [] then []
    else if MentionsThreshold(lines[0]) then KeepDiagnostics(lines[1..])
    else [lines[0]] + KeepDiagnostics(lines[1..])
  }

  /** Selecting from a concatenation selects from each part. */
  lemma {:induction false} KeepDiagnosticsAppend(a: seq<string>, b: seq<string>)
    ensures KeepDiagnostics(a + b) == KeepDiagnostics(a) + KeepDiagnostics(b)
    decreases |a|
  {
    if a == [] {
      assert a + b == b;
    } else {
      assert (a + b)[1..] == a[1..] + b;
      KeepDiagnosticsAppend(a[1..], b);
    }
  }

  /** A report without threshold lines passes through unchanged, and selecting twice selects nothing more. */
  lemma {:induction false} KeepDiagnosticsIdentity(lines: seq<string>)
    requires forall i :: 0 <= i < |lines| ==> !MentionsThreshold(lines[i])
    ensures KeepDiagnostics(lines) == lines
    decreases |lines|
  {
    if lines != [] {
      KeepDiagnosticsIdentity(lines[1..]);
    }
  }

  lemma KeepDiagnosticsIdempotent(lines: seq<string>)
    ensures KeepDiagnostics(KeepDiagnostics(lines)) == KeepDiagnostics(lines)
  {
    var kept := KeepDiagnostics(lines);
    forall i | 0 <= i < |kept| ensures !MentionsThreshold(kept[i]) {
      assert kept[i] in kept;
    }
    KeepDiagnosticsIdentity(kept);
  }

  /** Entry `i` is the first failure, and it fails with `e`. */
  predicate FirstFailure<T(==), E(==)>(rs: seq<Result<T, E>>, i: int, e: E) {
    && 0 <= i < |rs|
    && (forall j :: 0 <= j < i ==> rs[j].Success?)
    && rs[i] == Failure(e)
  }

  /**
   * The values of a run of outcomes taken in order, or the first failure:
   * what a Ruby `map` whose block may raise delivers.
   */
  function Collect<T(==), E(==)>(rs: seq<Result<T, E>>): (r: Result<seq<T>, E>)
    ensures r.Success? <==> forall i :: 0 <= i < |rs| ==> rs[i].Success?
    ensures r.Success? ==> |r.value| == |rs| && forall i :: 0 <= i < |rs| ==> rs[i] == Success(r.value[i])
    ensures r.Failure? ==> exists i :: FirstFailure(rs, i, r.error)
  {
    if rs == [] then Success([])
    else
      match rs[0]
      case Failure(e) =>
        assert FirstFailure(rs, 0, e);
        Failure(e)
      case Success(v) =>
        match Collect(rs[1..])
        case Failure(e) =>
          assert exists i :: FirstFailure(rs, i, e) by {
            forall i | FirstFailure(rs[1..], i, e) ensures FirstFailure(rs, i + 1, e) {
              assert rs[i + 1] == rs[1..][i];
              forall j | 0 <= j < i + 1 ensures rs[j].Success? {
                if j > 0 {
                  assert rs[j] == rs[1..][j - 1];
                }
              }
            }
          }
          Failure(e)
        case Success(rest) =>
          Success([v] + rest)
  }

  /** Collecting a concatenation collects each part, as long as nothing fails. */
  lemma CollectAppend<T, E>(a: seq<Result<T, E>>, b: seq<Result<T, E>>)
    requires Collect(a).Success? && Collect(b).Success?
    ensures Collect(a + b) == Success(Collect(a).value + Collect(b).value)
  {
    var x, y := Collect(a).value, Collect(b).value;
    var ab := a + b;
    forall i | 0 <= i < |ab| ensures ab[i] == Success((x + y)[i]) {
      if i < |a| {
        assert ab[i] == a[i];
      } else {
        assert ab[i] == b[i - |a|];
      }
    }
    CollectAllSuccess(ab, x + y);
  }

  /** Outcomes that are all successes collect to their values. */
  lemma CollectAllSuccess<T, E>(rs: seq<Result<T, E>>, vs: seq<T>)
    requires |rs| == |vs| && forall i :: 0 <= i < |rs| ==> rs[i] == Success(vs[i])
    ensures Collect(rs) == Success(vs)
  {
    assert forall i :: 0 <= i < |rs| ==> rs[i].Success?;
    var z := Collect(rs).value;
    assert forall i :: 0 <= i < |z| ==> z[i] == vs[i];
    assert z == vs;
  }

  /** A `map` whose block `f` may raise, over the elements `xs`. */
  function MapCollect<A, T(==), E(==)>(xs: seq<A>, f: A -> Result<T, E>): (r: Result<seq<T>, E>)
    ensures r.Success? <==> forall i :: 0 <= i < |xs| ==> f(xs[i]).Success?
    ensures r.Success? ==> |r.value| == |xs|
    ensures r.Success? ==> forall i :: 0 <= i < |xs| ==> f(xs[i]) == Success(r.value[i])
    ensures r.Failure? ==> exists i :: (
      && 0 <= i < |xs|
      && (forall j :: 0 <= j < i ==> f(xs[j]).Success?)
      && f(xs[i]) == Failure(r.error))
  {
    var rs := seq(|xs|, i requires 0 <= i < |xs| => f(xs[i]));
    var r := Collect(rs);
    assert forall i :: 0 <= i < |xs| ==> rs[i] == f(xs[i]);
    assert r.Failure? ==> exists i :: FirstFailure(rs, i, r.error);
    r
  }

  /**
   * The `map` of the pipeline: each line converted, in order, nil entries
   * kept. The first line that raises ends the map with its error.
   */
  function ConvertAll(lines: seq<string>, prefix: string, pwd: string, digest: string -> string): (r: Result<seq<Option<Issue>>, ConversionError>)
    ensures r.Success? <==> forall i :: 0 <= i < |lines| ==> LineToCodeClimate(lines[i], prefix, pwd, digest).Success?
    ensures r.Success? ==> |r.value| == |lines|
    ensures r.Success? ==> forall i :: 0 <= i < |lines| ==> LineToCodeClimate(lines[i], prefix, pwd, digest) == Success(r.value[i])
    ensures r.Failure? ==> exists i :: (
      && 0 <= i < |lines|
      && (forall j :: 0 <= j < i ==> LineToCodeClimate(lines[j], prefix, pwd, digest).Success?)
      && LineToCodeClimate(lines[i], prefix, pwd, digest) == Failure(r.error))
  {
    MapCollect(lines, line => LineToCodeClimate(line, prefix, pwd, digest))
  }

  /**
   * The result list `run` writes and evaluates: one entry per kept line, in
   * order, or the error of the first kept line whose conversion raises.
   */
  function ConvertReport(lines: seq<string>, prefix: string, pwd: string, digest: string -> string): (r: Result<seq<Option<Issue>>, ConversionError>)
    ensures r.Success? ==> |r.value| == |KeepDiagnostics(lines)|
    ensures r.Success? ==> forall i :: 0 <= i < |KeepDiagnostics(lines)| ==>
      LineToCodeClimate(KeepDiagnostics(lines)[i], prefix, pwd, digest) == Success(r.value[i])
    ensures r.Failure? ==> exists i :: (
      && 0 <= i < |KeepDiagnostics(lines)|
      && (forall j :: 0 <= j < i ==> LineToCodeClimate(KeepDiagnostics(lines)[j], prefix, pwd, digest).Success?)
      && LineToCodeClimate(KeepDiagnostics(lines)[i], prefix, pwd, digest) == Failure(r.error))
  {
    ConvertAll(KeepDiagnostics(lines), prefix, pwd, digest)
  }

  /** An empty report converts to an empty list, the `[]` the action writes. */
  lemma EmptyReport(prefix: string, pwd: string, digest: string -> string)
    ensures ConvertReport([], prefix, pwd, digest) == Success([])
  {
  }

  /**
   * Without threshold lines, every line yields exactly one entry, in
   * order: the report has as many entries as the input has lines.
   */
  lemma OneEntryPerLine(lines: seq<string>, prefix: string, pwd: string, digest: string -> string)
    requires forall i :: 0 <= i < |lines| ==> !MentionsThreshold(lines[i])
    requires ConvertReport(lines, prefix, pwd, digest).Success?
    ensures |ConvertReport(lines, prefix, pwd, digest).value| == |lines|
    ensures forall i :: 0 <= i < |lines| ==>
      LineToCodeClimate(lines[i], prefix, pwd, digest) == Success(ConvertReport(lines, prefix, pwd, digest).value[i])
  {
    KeepDiagnosticsIdentity(lines);
  }
}
