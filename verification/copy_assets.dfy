/** Planning the copies the asset-copy script hands to `copyfiles`. */
module CopyAssets {
  import opened Wrappers
  import opened Text
  import opened Diagnostics

  const AccessErrorCode := "NE0031"
  const AccessErrorPath := "AssetCopy"

  /** One group of the configuration: directories to copy from, a glob, and a target. */
  datatype AssetGroup = AssetGroup(sources: seq<string>, pattern: Option<string>, target: string)

  /** The Node operations the script calls, as an oracle. */
  datatype PathOps = PathOps(
    normalize: string -> string,          // path.normalize(p)
    join: (string, string) -> string,     // path.join(dir, pattern)
    accessible: string -> bool)           // whether fs.promises.access(dir) resolves

  /** What happens for one source directory. */
  datatype Step =
    | Copy(paths: seq<string>, up: nat)        // copyfiles([pattern path, target], { up })
    | ReportInaccessible(error: ErrorObject)   // handleErrorObject after access rejects
    | JoinRejected(directory: string)          // path.join raises on an undefined pattern

  predicate IsPathSeparator(c: char) {
    c == '/' || c == '\\'
  }

  /** `directoryToCopy.split(/[\\/]/).length`: the `up` option of `copyfiles`. */
  function Depth(dir: string): nat {
    |Split(dir, IsPathSeparator)|
  }

  /**
   * The depth is the number of separators plus one, and the pieces it counts are the
   * path with every separator written as a slash.
   */
  lemma DepthCountsSegments(dir: string)
    ensures Depth(dir) == Count(dir, IsPathSeparator) + 1
    ensures Depth(dir) >= 1
    ensures Join(Split(dir, IsPathSeparator), "/") == ReplaceWhere(dir, IsPathSeparator, '/')
  {
    SplitCount(dir, IsPathSeparator);
    JoinSplit(dir, IsPathSeparator, '/');
  }

  function InaccessibleError(dir: string): (e: ErrorObject)
    ensures e.code == Some(AccessErrorCode) && e.path == AccessErrorPath
  {
    ErrorObject(Some(AccessErrorCode), AccessErrorPath,
      "The directory \"" + dir + "\" cannot be accessed to copy files from.")
  }

  /**
   * The step for one source of a group. The directory is normalised first; an inaccessible
   * one is reported and not copied; otherwise the glob under it is copied into the group's
   * target, stripping as many leading path segments as the directory has.
   */
  function PlanSource(g: AssetGroup, source: string, ops: PathOps): (s: Step)
    ensures var dir := ops.normalize(source);
      && (s.ReportInaccessible? <==> !ops.accessible(dir))
      && (s.ReportInaccessible? ==> s.error == InaccessibleError(dir))
      && (s.Copy? <==> ops.accessible(dir) && g.pattern.Some?)
      && (s.Copy? ==>
            && s.paths == [ops.join(dir, g.pattern.value), g.target]
            && s.up == Count(dir, IsPathSeparator) + 1)
  {
    var dir := ops.normalize(source);
    DepthCountsSegments(dir);
    if !ops.accessible(dir) then ReportInaccessible(InaccessibleError(dir))
    else if g.pattern.None? then JoinRejected(dir)
    else Copy([ops.join(dir, g.pattern.value), g.target], Depth(dir))
  }

  /** The steps of one group, one per source, in source order. */
  function PlanGroup(g: AssetGroup, ops: PathOps): (steps: seq<Step>)
    ensures |steps| == |g.sources|
    ensures forall j :: 0 <= j < |g.sources| ==> steps[j] == PlanSource(g, g.sources[j], ops)
  {
    seq(|g.sources|, j requires 0 <= j < |g.sources| => PlanSource(g, g.sources[j], ops))
  }

  /** `copyFilesFromConfig`: the groups' steps, flattened group after group. */
  function Plan(config: seq<AssetGroup>, ops: PathOps): seq<Step>
    decreases |config|
  {
    if config == [] then [] else PlanGroup(config[0], ops) + Plan(config[1..], ops)
  }

  /** The number of sources in the groups before group `i`. */
  function SourcesBefore(config: seq<AssetGroup>, i: nat): nat
    requires i <= |config|
    decreases i
  {
    if i == 0 then 0 else SourcesBefore(config, i - 1) + |config[i - 1].sources|
  }

  lemma {:induction false} SourcesBeforeShift(config: seq<AssetGroup>, i: nat)
    requires 0 < i <= |config|
    ensures SourcesBefore(config, i) == |config[0].sources| + SourcesBefore(config[1..], i - 1)
    decreases i
  {
    if i > 1 {
      SourcesBeforeShift(config, i - 1);
    }
  }

  lemma {:induction false} PlanLength(config: seq<AssetGroup>, ops: PathOps)
    ensures |Plan(config, ops)| == SourcesBefore(config, |config|)
    decreases |config|
  {
    if config != [] {
      PlanLength(config[1..], ops);
      SourcesBeforeShift(config, |config|);
    }
  }

  /** The first group's steps open the plan. */
  lemma PlanFirst(config: seq<AssetGroup>, ops: PathOps, j: nat)
    requires config != [] && j < |config[0].sources|
    ensures j < |Plan(config, ops)|
    ensures Plan(config, ops)[j] == PlanGroup(config[0], ops)[j]
  {
    var first := PlanGroup(config[0], ops);
    assert Plan(config, ops) == first + Plan(config[1..], ops);
    assert Plan(config, ops)[j] == first[j];
  }

  /** After the first group's steps come the steps of the remaining groups. */
  lemma PlanShift(config: seq<AssetGroup>, ops: PathOps, k: nat)
    requires config != [] && k < |Plan(config[1..], ops)|
    ensures |config[0].sources| + k < |Plan(config, ops)|
    ensures Plan(config, ops)[|config[0].sources| + k] == Plan(config[1..], ops)[k]
  {
    var first := PlanGroup(config[0], ops);
    assert Plan(config, ops) == first + Plan(config[1..], ops);
  }

  lemma {:induction false} PlanIndex(config: seq<AssetGroup>, ops: PathOps, i: nat, j: nat)
    requires i < |config| && j < |config[i].sources|
    ensures SourcesBefore(config, i) + j < |Plan(config, ops)|
    ensures Plan(config, ops)[SourcesBefore(config, i) + j] == PlanGroup(config[i], ops)[j]
    decreases i
  {
    if i == 0 {
      PlanFirst(config, ops, j);
    } else {
      var rest := config[1..];
      var k := SourcesBefore(rest, i - 1) + j;
      SourcesBeforeShift(config, i);
      assert SourcesBefore(config, i) + j == |config[0].sources| + k;
      assert config[i] == rest[i - 1];
      PlanIndex(rest, ops, i - 1, j);
      PlanShift(config, ops, k);
    }
  }

  /** The step for source `j` of group `i` sits at `SourcesBefore(config, i) + j` of the plan. */
  ghost predicate StepAt(config: seq<AssetGroup>, ops: PathOps, i: nat, j: nat)
    requires i < |config| && j < |config[i].sources|
  {
    var k := SourcesBefore(config, i) + j;
    k < |Plan(config, ops)| && Plan(config, ops)[k] == PlanSource(config[i], config[i].sources[j], ops)
  }

  /**
   * Exactly one step per (group, source) pair, ordered by group and then by source.
   */
  lemma {:induction false} PlanCoversEverySource(config: seq<AssetGroup>, ops: PathOps)
    ensures |Plan(config, ops)| == SourcesBefore(config, |config|)
    ensures forall i: nat, j: nat :: i < |config| && j < |config[i].sources| ==> StepAt(config, ops, i, j)
  {
    PlanLength(config, ops);
    forall i: nat, j: nat | i < |config| && j < |config[i].sources|
      ensures StepAt(config, ops, i, j)
    {
      PlanIndex(config, ops, i, j);
    }
  }

  /** Every copy goes into the target of the group its source belongs to. */
  lemma CopiesGoToOwnTarget(config: seq<AssetGroup>, ops: PathOps, i: nat, j: nat)
    requires i < |config| && j < |config[i].sources|
    ensures SourcesBefore(config, i) + j < |Plan(config, ops)|
    ensures var s := Plan(config, ops)[SourcesBefore(config, i) + j];
      s.Copy? ==> |s.paths| == 2 && s.paths[1] == config[i].target
  {
    PlanIndex(config, ops, i, j);
  }

  /** The script's entry point: no configuration means no step at all. */
  function CopyAssets(config: Option<seq<AssetGroup>>, ops: PathOps): (steps: seq<Step>)
    ensures config.None? ==> steps == []
    ensures config.Some? ==> steps == Plan(config.value, ops)
  {
    match config
    case None => []
    case Some(groups) => Plan(groups, ops)
  }
}
