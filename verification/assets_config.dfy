/**
 * Loading and validating the asset-copy configuration: the groups read from
 * assets-to-copy.json, or from the "assetsToCopy" key of package.json.
 */
module AssetsConfig {
  import opened Wrappers
  import opened Seqs
  import opened Text
  import opened JsValues

  const AssetsKeyInPackageJson := "assetsToCopy"

  const SourcesError := "sources must be an array of strings"
  const PatternError := "pattern must be a glob string"
  const TargetError := "target must be a string"

  const ShapeError := "The configuration must be an array of asset groups of the form: "
    + "{ sources: Array<string>, pattern: string [optional], target: string }."

  /** The position of a validation message in the order the checks run. */
  function Rank(e: string): nat {
    if e == SourcesError then 0 else if e == PatternError then 1 else 2
  }

  /**
   * The messages `isValid` collects for one group: one per failed check, in the order
   * sources, pattern, target.
   */
  function GroupErrors(g: JsValue): (errors: seq<string>)
    ensures SourcesError in errors <==> !Get(g, "sources").Arr?
    ensures PatternError in errors <==> Truthy(Get(g, "pattern")) && !Get(g, "pattern").Str?
    ensures TargetError in errors <==> !Get(g, "target").Str?
    ensures forall e :: e in errors ==> e == SourcesError || e == PatternError || e == TargetError
    ensures forall i, j :: 0 <= i < j < |errors| ==> Rank(errors[i]) < Rank(errors[j])
  {
    var pattern := Get(g, "pattern");
    (if Get(g, "sources").Arr? then [] else [SourcesError])
    + (if Truthy(pattern) && !pattern.Str? then [PatternError] else [])
    + (if Get(g, "target").Str? then [] else [TargetError])
  }

  /** `isValid`: a group is valid when it collected no error message. */
  predicate IsValid(g: JsValue)
    ensures IsValid(g) <==>
      && Get(g, "sources").Arr?
      && (!Truthy(Get(g, "pattern")) || Get(g, "pattern").Str?)
      && Get(g, "target").Str?
  {
    GroupErrors(g) == []
  }

  predicate IsInvalid(g: JsValue) {
    !IsValid(g)
  }

  /** The stderr line `isValid` writes for an invalid group whose JSON text is `json`. */
  function InvalidGroupMessage(json: string, errors: seq<string>): string {
    "Invalid asset group: " + json + ": " + Join(errors, ", ") + "."
  }

  /** The stderr lines `isValid` writes while filtering `groups`: one per invalid group. */
  function InvalidGroupReports(groups: seq<JsValue>, stringify: JsValue -> string): seq<string> {
    var invalid := Filter(groups, IsInvalid);
    seq(|invalid|, i requires 0 <= i < |invalid| => InvalidGroupMessage(stringify(invalid[i]), GroupErrors(invalid[i])))
  }

  /**
   * The groups `filter` visits before the first null or undefined one, on which
   * `isValid` raises a TypeError.
   */
  function UntilNullish(groups: seq<JsValue>): (prefix: seq<JsValue>)
    ensures prefix <= groups
    ensures forall i :: 0 <= i < |prefix| ==> !IsNullish(prefix[i])
    ensures |prefix| < |groups| ==> IsNullish(groups[|prefix|])
    decreases |groups|
  {
    if groups == [] || IsNullish(groups[0]) then []
    else [groups[0]] + UntilNullish(groups[1..])
  }

  /** The settled state of the promise `getAssetsConfig` returns. */
  datatype Outcome = Resolved(value: JsValue) | Rejected

  /** The settled state of the promise and the lines written to stderr on the way. */
  datatype Settled = Settled(outcome: Outcome, stderr: seq<string>)

  /**
   * The configuration the two reads produce. `assetsFile` is assets-to-copy.json and
   * `packageFile` is package.json, each `None` when reading or parsing it fails.
   */
  function LoadConfig(assetsFile: Option<JsValue>, packageFile: Option<JsValue>): JsValue {
    match assetsFile
    case Some(config) => config
    case None =>
      match packageFile
      // Reading the key of a `null` package.json raises a TypeError that the catch turns into undefined.
      case Some(package) => Get(package, AssetsKeyInPackageJson)
      case None => Undefined
  }

  /** The post-processing of the loaded configuration. */
  function PostProcess(config: JsValue, stringify: JsValue -> string): (r: Settled)
    ensures !Truthy(config) ==> r == Settled(Resolved(config), [])
    ensures Truthy(config) && !config.Arr? ==> r == Settled(Resolved(Null), [ShapeError])
    ensures r.outcome.Resolved? && r.outcome.value.Arr? ==>
      && config.Arr?
      && |r.outcome.value.items| > 0
      && (forall i :: 0 <= i < |r.outcome.value.items| ==> IsValid(r.outcome.value.items[i]))
    ensures r.outcome.Rejected? <==> config.Arr? && exists i :: 0 <= i < |config.items| && IsNullish(config.items[i])
  {
    if !Truthy(config) then Settled(Resolved(config), [])
    else if !config.Arr? then Settled(Resolved(Null), [ShapeError])
    else
      var visited := UntilNullish(config.items);
      var stderr := InvalidGroupReports(visited, stringify);
      if |visited| < |config.items| then Settled(Rejected, stderr)
      else
        var valid := Filter(config.items, IsValid);
        FilterMembers(config.items, IsValid);
        Settled(Resolved(if valid == [] then Null else Arr(valid)), stderr)
  }

  /** `getAssetsConfig`: load, then post-process. */
  function GetAssetsConfig(assetsFile: Option<JsValue>, packageFile: Option<JsValue>, stringify: JsValue -> string): Settled {
    PostProcess(LoadConfig(assetsFile, packageFile), stringify)
  }

  /**
   * The whole script: a parsed assets-to-copy.json is post-processed as it is, and when
   * neither file yields a configuration the promise resolves to undefined without a report.
   */
  lemma GetAssetsConfigOutcomes(assetsFile: Option<JsValue>, packageFile: Option<JsValue>, stringify: JsValue -> string)
    ensures assetsFile.Some? ==> GetAssetsConfig(assetsFile, packageFile, stringify) == PostProcess(assetsFile.value, stringify)
    ensures assetsFile.None? && (packageFile.None? || Get(packageFile.value, AssetsKeyInPackageJson).Undefined?) ==>
      GetAssetsConfig(assetsFile, packageFile, stringify) == Settled(Resolved(Undefined), [])
  {
  }

  /** assets-to-copy.json wins whenever it parses: package.json is then never consulted. */
  lemma AssetsFileTakesPrecedence(config: JsValue, packageA: Option<JsValue>, packageB: Option<JsValue>)
    ensures LoadConfig(Some(config), packageA) == config
    ensures LoadConfig(Some(config), packageA) == LoadConfig(Some(config), packageB)
  {
  }

  /** Without a readable assets-to-copy.json the result is the package's "assetsToCopy" value, or undefined. */
  lemma PackageJsonIsFallback(packageFile: Option<JsValue>)
    ensures packageFile.None? ==> LoadConfig(None, packageFile) == Undefined
    ensures packageFile.Some? && packageFile.value.Obj? && AssetsKeyInPackageJson in packageFile.value.props ==>
      LoadConfig(None, packageFile) == packageFile.value.props[AssetsKeyInPackageJson]
    ensures packageFile.Some? && packageFile.value.Obj? && AssetsKeyInPackageJson !in packageFile.value.props ==>
      LoadConfig(None, packageFile) == Undefined
    ensures packageFile.Some? && !packageFile.value.Obj? ==> LoadConfig(None, packageFile) == Undefined
  {
  }

  /**
   * For an array without null groups, the result is exactly the valid groups in their
   * original order, or null when none is valid; every invalid group is reported once.
   */
  lemma {:induction false} ArrayConfigKeepsValidGroups(groups: seq<JsValue>, stringify: JsValue -> string)
    requires forall i :: 0 <= i < |groups| ==> !IsNullish(groups[i])
    ensures var r := PostProcess(Arr(groups), stringify);
      && r.outcome == Resolved(if Filter(groups, IsValid) == [] then Null else Arr(Filter(groups, IsValid)))
      && |r.stderr| == |groups| - |Filter(groups, IsValid)|
      && (r.stderr == [] <==> forall g :: g in groups ==> IsValid(g))
  {
    var r := PostProcess(Arr(groups), stringify);
    UntilNullishWhole(groups);
    assert r.stderr == InvalidGroupReports(groups, stringify);
    FilterPartition(groups, IsValid, IsInvalid);
    FilterMembers(groups, IsInvalid);
    if forall g :: g in groups ==> IsValid(g) {
      FilterNone(groups, IsInvalid);
    }
  }

  /** For an array without null groups, stderr is exactly the reports of its invalid groups, in array order. */
  lemma ArrayConfigReports(groups: seq<JsValue>, stringify: JsValue -> string)
    requires forall i :: 0 <= i < |groups| ==> !IsNullish(groups[i])
    ensures PostProcess(Arr(groups), stringify).stderr == InvalidGroupReports(groups, stringify)
  {
    UntilNullishWhole(groups);
  }

  /** An array configuration comes back unchanged exactly when it is non-empty and every group is valid. */
  lemma AllValidKeepsConfig(groups: seq<JsValue>, stringify: JsValue -> string)
    requires forall i :: 0 <= i < |groups| ==> !IsNullish(groups[i])
    ensures PostProcess(Arr(groups), stringify).outcome == Resolved(Arr(groups)) <==>
      groups != [] && forall g :: g in groups ==> IsValid(g)
  {
    UntilNullishWhole(groups);
    FilterKeepsAll(groups, IsValid);
  }

  lemma {:induction false} UntilNullishWhole(groups: seq<JsValue>)
    requires forall i :: 0 <= i < |groups| ==> !IsNullish(groups[i])
    ensures UntilNullish(groups) == groups
    decreases |groups|
  {
    if groups != [] {
      assert !IsNullish(groups[0]);
      UntilNullishWhole(groups[1..]);
      assert [groups[0]] + groups[1..] == groups;
    }
  }

  /**
   * An array whose first null or undefined group sits at `k` rejects the promise, after
   * `isValid` has written the reports of the invalid groups before `k`, in order.
   */
  lemma {:induction false} RejectionReportsVisitedGroups(groups: seq<JsValue>, stringify: JsValue -> string, k: nat)
    requires k < |groups| && IsNullish(groups[k])
    requires forall i :: 0 <= i < k ==> !IsNullish(groups[i])
    ensures PostProcess(Arr(groups), stringify) == Settled(Rejected, InvalidGroupReports(groups[..k], stringify))
  {
    var visited := UntilNullish(groups);
    assert visited == groups[..k];
  }

  /** A valid group passes the filter; an invalid one does not, and its own report is among the reports. */
  lemma {:induction false} FilterSeparatesGroup(groups: seq<JsValue>, stringify: JsValue -> string, g: JsValue)
    requires g in groups
    ensures IsValid(g) ==> g in Filter(groups, IsValid)
    ensures !IsValid(g) ==>
      g !in Filter(groups, IsValid)
      && InvalidGroupMessage(stringify(g), GroupErrors(g)) in InvalidGroupReports(groups, stringify)
  {
    FilterMembers(groups, IsValid);
    if !IsValid(g) {
      FilterMembers(groups, IsInvalid);
      var invalid := Filter(groups, IsInvalid);
      assert g in invalid;
      var k :| 0 <= k < |invalid| && invalid[k] == g;
      assert InvalidGroupReports(groups, stringify)[k] == InvalidGroupMessage(stringify(g), GroupErrors(g));
    }
  }

  /**
   * For an array without null groups, a valid group is kept in the resolved array, and an
   * invalid one is dropped from it while its own report is written to stderr.
   */
  lemma ReportsMatchDroppedGroups(groups: seq<JsValue>, stringify: JsValue -> string, g: JsValue)
    requires forall i :: 0 <= i < |groups| ==> !IsNullish(groups[i])
    requires g in groups
    ensures var r := PostProcess(Arr(groups), stringify);
      IsValid(g) ==> r.outcome.Resolved? && r.outcome.value.Arr? && g in r.outcome.value.items
    ensures var r := PostProcess(Arr(groups), stringify);
      !IsValid(g) ==>
        && r.outcome.Resolved?
        && !(r.outcome.value.Arr? && g in r.outcome.value.items)
        && InvalidGroupMessage(stringify(g), GroupErrors(g)) in r.stderr
  {
    FilterSeparatesGroup(groups, stringify, g);
    ArrayConfigKeepsValidGroups(groups, stringify);
    ArrayConfigReports(groups, stringify);
  }
}
