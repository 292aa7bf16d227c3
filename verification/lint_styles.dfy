/** Triage of Stylelint results and their translation into build warnings. */
module LintStyles {
  import opened Wrappers
  import opened Seqs
  import opened JsValues
  import opened Diagnostics

  const DeprecationCode := "stylelint-deprecation"
  const InvalidOptionCode := "stylelint-invalid-option"
  const ParseErrorCode := "stylelint-parse-error"

  datatype Warning = Warning(text: string, rule: string, line: int, column: int)
  datatype Deprecation = Deprecation(text: string, reference: string)
  datatype InvalidOptionWarning = InvalidOptionWarning(text: string)

  /**
   * One Stylelint result. Each list is `None` when the property is absent, which the
   * script's optional chaining treats as empty.
   */
  datatype LintResult = LintResult(
    source: string,
    ignored: bool,
    errored: bool,
    warnings: Option<seq<Warning>>,
    deprecations: Option<seq<Deprecation>>,
    invalidOptionWarnings: Option<seq<InvalidOptionWarning>>,
    parseErrors: Option<seq<JsValue>>)

  /** The entries of an optional list; an absent list has none. */
  function Entries<T>(list: Option<seq<T>>): seq<T> {
    list.GetOr([])
  }

  /** `list?.length` as a truthy value: present and non-empty. */
  predicate HasEntries<T>(list: Option<seq<T>>) {
    list.Some? && |list.value| != 0
  }

  /** `isFailed`: whether the result should fail the build. */
  predicate IsFailed(r: LintResult) {
    !r.ignored && (
      r.errored
      || HasEntries(r.warnings)
      || HasEntries(r.deprecations)
      || HasEntries(r.invalidOptionWarnings)
      || HasEntries(r.parseErrors))
  }

  function WarningRecord(r: LintResult, w: Warning): WarningObject {
    WarningObject(w.text, w.rule, r.source, Some(w.line), Some(w.column))
  }

  function DeprecationRecord(r: LintResult, d: Deprecation): WarningObject {
    WarningObject(d.text + " (" + d.reference + ")", DeprecationCode, r.source, None, None)
  }

  function InvalidOptionRecord(r: LintResult, w: InvalidOptionWarning): WarningObject {
    WarningObject(w.text, InvalidOptionCode, r.source, None, None)
  }

  function ParseErrorRecord(r: LintResult, e: JsValue, stringify: JsValue -> string): WarningObject {
    WarningObject(stringify(e), ParseErrorCode, r.source, None, None)
  }

  /**
   * `formatResult`: the warning objects reported for one result, in reporting order.
   * `stringify` stands for `JSON.stringify`.
   */
  function FormatResult(r: LintResult, stringify: JsValue -> string): (out: seq<WarningObject>)
    ensures r.ignored ==> out == []
    ensures !r.ignored ==>
      |out| == |Entries(r.warnings)| + |Entries(r.deprecations)|
        + |Entries(r.invalidOptionWarnings)| + |Entries(r.parseErrors)|
    ensures forall k :: 0 <= k < |out| ==> out[k].path == r.source
  {
    if r.ignored then []
    else
      var ws := Entries(r.warnings);
      var ds := Entries(r.deprecations);
      var os := Entries(r.invalidOptionWarnings);
      var ps := Entries(r.parseErrors);
      seq(|ws|, i requires 0 <= i < |ws| => WarningRecord(r, ws[i]))
      + seq(|ds|, i requires 0 <= i < |ds| => DeprecationRecord(r, ds[i]))
      + seq(|os|, i requires 0 <= i < |os| => InvalidOptionRecord(r, os[i]))
      + seq(|ps|, i requires 0 <= i < |ps| => ParseErrorRecord(r, ps[i], stringify))
  }

  /**
   * Record by record: regular warnings come first and alone carry a line and column and
   * their rule as code; deprecations, invalid-option warnings and parse errors follow in
   * that order, each with its fixed code.
   */
  lemma FormatResultOrder(r: LintResult, stringify: JsValue -> string)
    requires !r.ignored
    ensures var out := FormatResult(r, stringify);
      var nw := |Entries(r.warnings)|;
      var nd := |Entries(r.deprecations)|;
      var no := |Entries(r.invalidOptionWarnings)|;
      && (forall i :: 0 <= i < nw ==>
            var w := Entries(r.warnings)[i];
            out[i] == WarningObject(w.text, w.rule, r.source, Some(w.line), Some(w.column)))
      && (forall i :: 0 <= i < nd ==>
            var d := Entries(r.deprecations)[i];
            out[nw + i] == WarningObject(d.text + " (" + d.reference + ")", DeprecationCode, r.source, None, None))
      && (forall i :: 0 <= i < no ==>
            out[nw + nd + i] == WarningObject(Entries(r.invalidOptionWarnings)[i].text, InvalidOptionCode, r.source, None, None))
      && (forall i :: 0 <= i < |Entries(r.parseErrors)| ==>
            out[nw + nd + no + i] == WarningObject(stringify(Entries(r.parseErrors)[i]), ParseErrorCode, r.source, None, None))
      && (forall k :: nw <= k < |out| ==> out[k].line.None? && out[k].column.None?)
  {
  }

  /**
   * The two functions agree except on `errored`: a result that is not errored fails
   * exactly when it produces at least one warning record.
   */
  lemma FailedIffReported(r: LintResult, stringify: JsValue -> string)
    ensures IsFailed(r) <==> !r.ignored && (r.errored || |FormatResult(r, stringify)| > 0)
  {
  }

  /** An ignored result never fails and produces no record. */
  lemma IgnoredIsSilent(r: LintResult, stringify: JsValue -> string)
    requires r.ignored
    ensures !IsFailed(r) && FormatResult(r, stringify) == []
  {
  }

  /** A result can fail while reporting nothing: not ignored, `errored`, and every list empty or absent. */
  lemma FailedWithoutRecords(r: LintResult, stringify: JsValue -> string)
    requires !r.ignored && r.errored
    requires Entries(r.warnings) == [] && Entries(r.deprecations) == []
    requires Entries(r.invalidOptionWarnings) == [] && Entries(r.parseErrors) == []
    ensures IsFailed(r) && FormatResult(r, stringify) == []
  {
  }

  /** The formatter: the records of every result, result by result. */
  function FormatResults(results: seq<LintResult>, stringify: JsValue -> string): seq<WarningObject>
    decreases |results|
  {
    if results == [] then []
    else FormatResult(results[0], stringify) + FormatResults(results[1..], stringify)
  }

  /** The formatter reports each batch of results after the previous one, without loss or reordering. */
  lemma {:induction false} FormatResultsAppend(a: seq<LintResult>, b: seq<LintResult>, stringify: JsValue -> string)
    ensures FormatResults(a + b, stringify) == FormatResults(a, stringify) + FormatResults(b, stringify)
    ensures FormatResults([], stringify) == []
    ensures forall r :: FormatResults([r], stringify) == FormatResult(r, stringify)
    decreases |a|
  {
    if a == [] {
      assert a + b == b;
    } else {
      assert (a + b)[0] == a[0];
      assert (a + b)[1..] == a[1..] + b;
      FormatResultsAppend(a[1..], b, stringify);
    }
    forall r | true
      ensures FormatResults([r], stringify) == FormatResult(r, stringify)
    {
      assert [r][1..] == [];
    }
  }
}
