/**
 * Resolution of the directory a front-end tool should run in: the argument checks, the
 * search for the solution root, the `_solution_` marker and the choice of what to print.
 */
module GetPath {
  import opened Wrappers
  import opened Text
  import opened JsValues

  const SolutionFolderMarker := "_solution_"
  const SolutionFileExtension := ".sln"
  /** What the script prints when there is no usable path. */
  const NoPath := "!"

  /** The values of `extensionToTypeMap`, naming a section of the configuration. */
  datatype FileKind = Scripts | Markdown | Styles

  datatype Location = Source | Target

  /** The failures that end the script with exit code 1 after reporting an error. */
  datatype Failure =
    | UsageType       // first argument is not a known extension
    | UsageLocation   // second argument is neither 'source' nor 'target'
    | MissingConfig   // the configuration helper returned nothing
    | NoSolution      // no directory up to the root holds a .sln file
    | UnreadableDirectory // fs.readdirSync threw for a directory of the search
    | TypeError       // a configuration value of the wrong JavaScript type

  function SectionName(k: FileKind): string {
    match k
    case Scripts => "scripts"
    case Markdown => "markdown"
    case Styles => "styles"
  }

  function LocationName(l: Location): string {
    match l
    case Source => "source"
    case Target => "target"
  }

  /** The own keys of `extensionToTypeMap` and the sections they select. */
  const ExtensionToType: map<string, FileKind> := map["js" := Scripts, "md" := Markdown, "scss" := Styles]

  /** The names every object literal inherits from `Object.prototype`, all of them truthy. */
  const InheritedObjectMembers: set<string> := {
    "constructor", "__proto__", "hasOwnProperty", "isPrototypeOf", "propertyIsEnumerable",
    "toLocaleString", "toString", "valueOf",
    "__defineGetter__", "__defineSetter__", "__lookupGetter__", "__lookupSetter__"
  }

  /** What `extensionToTypeMap[extension]` evaluates to when it is truthy. */
  datatype TypeLookup = OwnType(kind: FileKind) | InheritedMember(name: string)

  /**
   * The lookup as written: an indexed read of a plain object literal, which also finds the
   * members inherited from `Object.prototype`. A missing argument reads the key "undefined".
   */
  function TypeLookupAsWritten(extension: Option<string>): Option<TypeLookup> {
    var key := extension.GetOr("undefined");
    if key in ExtensionToType then Some(OwnType(ExtensionToType[key]))
    else if key in InheritedObjectMembers then Some(InheritedMember(key))
    else None
  }

  /** The guard as written lets `constructor` through although it is none of js, md and scss. */
  lemma AsWrittenAcceptsInheritedMember()
    ensures TypeLookupAsWritten(Some("constructor")) == Some(InheritedMember("constructor"))
    ensures Some("constructor") !in {Some("js"), Some("md"), Some("scss")}
  {
  }

  /** The lookup with own-property semantics: exactly js, md and scss are accepted. */
  function KindOf(extension: Option<string>): (r: Option<FileKind>)
    ensures r.Some? <==> extension in {Some("js"), Some("md"), Some("scss")}
    ensures r == Some(Scripts) <==> extension == Some("js")
    ensures r == Some(Markdown) <==> extension == Some("md")
    ensures r == Some(Styles) <==> extension == Some("scss")
  {
    if extension.Some? && extension.value in ExtensionToType then Some(ExtensionToType[extension.value]) else None
  }

  /** The corrected lookup agrees with the written one on the three extensions and rejects every inherited name. */
  lemma KindOfRejectsInheritedMembers(extension: Option<string>)
    ensures KindOf(extension).Some? ==> TypeLookupAsWritten(extension) == Some(OwnType(KindOf(extension).value))
    ensures extension.Some? && extension.value in InheritedObjectMembers ==>
      KindOf(extension).None? && TypeLookupAsWritten(extension).Some?
  {
  }

  function LocationOf(arg: Option<string>): (r: Option<Location>)
    ensures r.Some? <==> arg == Some("source") || arg == Some("target")
    ensures r.Some? ==> arg == Some(LocationName(r.value))
  {
    if arg == Some("source") then Some(Source)
    else if arg == Some("target") then Some(Target)
    else None
  }

  /** The validated command-line arguments. */
  datatype Args = Args(extension: string, kind: FileKind, location: Location)

  /**
   * The argument checks on `process.argv.slice(2)`: the extension first, then the location;
   * further arguments are ignored.
   */
  function ParseArgs(argv: seq<string>): (r: Result<Args, Failure>)
    ensures r == Err(UsageType) <==> |argv| == 0 || argv[0] !in ExtensionToType
    ensures r == Err(UsageLocation) <==>
      |argv| >= 1 && argv[0] in ExtensionToType && (|argv| == 1 || argv[1] !in {"source", "target"})
    ensures r.Ok? ==>
      && |argv| >= 2
      && r.value.extension == argv[0]
      && ExtensionToType[argv[0]] == r.value.kind
      && LocationName(r.value.location) == argv[1]
  {
    var extension := if |argv| >= 1 then Some(argv[0]) else None;
    var location := if |argv| >= 2 then Some(argv[1]) else None;
    match KindOf(extension)
    case None => Err(UsageType)
    case Some(kind) =>
      match LocationOf(location)
      case None => Err(UsageLocation)
      case Some(loc) => Ok(Args(extension.value, kind, loc))
  }

  /** The file-system and `path` operations the script calls, as an oracle. */
  datatype Host = Host(
    cwd: string,                          // getCwd()
    initialDirectory: string,             // npm_config_local_prefix, or two levels above getCwd()
    parent: string -> string,             // path.resolve(dir, '..')
    listing: string -> Option<seq<string>>, // fs.readdirSync(dir), None when it throws
    pathExists: string -> bool,           // fs.existsSync(p)
    resolved: string -> bool,             // p is in the form path.resolve returns
    resolve: (string, string) -> string,  // path.resolve(base, p)
    relative: (string, string) -> string) // path.relative(from, to)

  /**
   * What `path.resolve(d, '..')` guarantees on either platform: its result is in resolved
   * form (absolute and normalised), and from a resolved directory other than the root,
   * which is its own parent, it is strictly shorter. A directory not yet in resolved form,
   * such as a relative one or `C:/`, gets one normalising step that may keep or grow its
   * length.
   */
  ghost predicate ResolvesUpwards(h: Host) {
    forall d :: h.resolved(h.parent(d)) && (h.resolved(d) && h.parent(d) != d ==> |h.parent(d)| < |d|)
  }

  /** Whether `p` starts at the file-system root, as a POSIX `path.isAbsolute` answers. */
  predicate IsRooted(p: string) {
    |p| > 0 && p[0] == '/'
  }

  /** The position of the last slash of `p` at or before `i`. */
  function LastSlash(p: string, i: nat): (k: nat)
    requires IsRooted(p) && i < |p|
    ensures k <= i && p[k] == '/'
    ensures forall m :: k < m <= i ==> p[m] != '/'
    decreases i
  {
    if p[i] == '/' then i else LastSlash(p, i - 1)
  }

  /**
   * A simplified POSIX parent, serving only as a witness that `ResolvesUpwards` can be met:
   * a rooted path loses everything from its last slash on, down to the root `/`, and any
   * other path goes to the root. It does not treat `..` segments or trailing slashes as
   * `path.resolve` does.
   */
  function PosixParent(p: string): (r: string)
    ensures IsRooted(r)
    ensures IsRooted(p) && |p| > 1 ==> |r| < |p| && r <= p
  {
    if !IsRooted(p) || |p| == 1 then "/"
    else
      var k := LastSlash(p, |p| - 1);
      if k == 0 then "/" else p[..k]
  }

  /** A host that resolves parents the simplified POSIX way meets the requirement of the search. */
  lemma PosixHostResolvesUpwards(h: Host)
    requires forall p :: h.parent(p) == PosixParent(p) && h.resolved(p) == IsRooted(p)
    ensures ResolvesUpwards(h)
  {
  }

  const DriveRoot := "C:\\"
  const ShareRoot := "\\\\server\\share\\"

  /**
   * A witness for the Windows roots: `path.resolve('C:/', '..')` gives `C:\` and the share
   * `\\server\share` resolves to `\\server\share\`. These normalising steps keep or grow
   * the length and end at a root that is its own parent. Other paths are resolved the
   * simplified POSIX way.
   */
  function Win32RootParent(p: string): (r: string)
    ensures r == DriveRoot || r == ShareRoot || IsRooted(r)
  {
    if p == "C:/" || p == DriveRoot then DriveRoot
    else if p == "\\\\server\\share" || p == ShareRoot then ShareRoot
    else PosixParent(p)
  }

  /** The two Windows steps: the drive root keeps its length, the share grows by its trailing backslash. */
  lemma Win32RootSteps()
    ensures Win32RootParent("C:/") == DriveRoot && |DriveRoot| == |"C:/"|
    ensures Win32RootParent("\\\\server\\share") == ShareRoot && |ShareRoot| == |"\\\\server\\share"| + 1
    ensures Win32RootParent(DriveRoot) == DriveRoot && Win32RootParent(ShareRoot) == ShareRoot
    ensures !IsRooted("C:/") && "C:/" != DriveRoot && "C:/" != ShareRoot && !IsRooted(DriveRoot)
    ensures var share := "\\\\server\\share"; !IsRooted(share) && share != DriveRoot && share != ShareRoot && !IsRooted(ShareRoot)
  {
  }

  /** Hosts whose Windows roots normalise with a step of equal or greater length still meet the requirement. */
  lemma Win32RootsResolveUpwards(h: Host)
    requires forall p :: h.parent(p) == Win32RootParent(p)
    requires forall p :: h.resolved(p) == (IsRooted(p) || p == DriveRoot || p == ShareRoot)
    ensures ResolvesUpwards(h)
  {
    Win32RootSteps();
    forall d ensures h.resolved(h.parent(d)) && (h.resolved(d) && h.parent(d) != d ==> |h.parent(d)| < |d|) {
      if d == "C:/" || d == DriveRoot {
        assert h.parent(d) == DriveRoot;
      } else if d == "\\\\server\\share" || d == ShareRoot {
        assert h.parent(d) == ShareRoot;
      } else {
        assert h.parent(d) == PosixParent(d);
      }
    }
  }

  predicate IsRoot(h: Host, d: string) {
    h.parent(d) == d
  }

  /** `fs.readdirSync(d)` returns a listing instead of throwing. */
  predicate Readable(h: Host, d: string) {
    h.listing(d).Some?
  }

  /** The listing of `d` is readable and some entry of it names a solution file. */
  predicate HoldsSolution(h: Host, d: string) {
    && Readable(h, d)
    && exists i :: 0 <= i < |h.listing(d).value| && EndsWith(h.listing(d).value[i], SolutionFileExtension)
  }

  /** The directory `k` levels above `d`. */
  function Ancestor(h: Host, d: string, k: nat): string
    decreases k
  {
    if k == 0 then d else Ancestor(h, h.parent(d), k - 1)
  }

  /**
   * `getSolutionDir`'s search: a listing that throws ends it; otherwise `d` if its listing
   * holds a .sln entry, otherwise the search from its parent, failing at the root.
   */
  function SolutionRoot(h: Host, d: string): (r: Result<string, Failure>)
    requires ResolvesUpwards(h)
    ensures r.Err? ==> r.error == NoSolution || r.error == UnreadableDirectory
    decreases if h.resolved(d) then 0 else 1, |d|
  {
    if !Readable(h, d) then Err(UnreadableDirectory)
    else if HoldsSolution(h, d) then Ok(d)
    else if IsRoot(h, d) then Err(NoSolution)
    else SolutionRoot(h, h.parent(d))
  }

  /** The search went on past `e`: its listing was read, held no solution file, and `e` is not the root. */
  ghost predicate PassedBy(h: Host, e: string) {
    Readable(h, e) && !HoldsSolution(h, e) && !IsRoot(h, e)
  }

  /** The `k`-th ancestor of `d` holds a solution file and is the first on the way up that does. */
  ghost predicate NearestSolution(h: Host, d: string, k: nat) {
    && HoldsSolution(h, Ancestor(h, d, k))
    && forall j: nat :: j < k ==> PassedBy(h, Ancestor(h, d, j))
  }

  /** The `k`-th ancestor of `d` is the root, its listing was read, and no directory up to it holds a solution file. */
  ghost predicate RootWithoutSolution(h: Host, d: string, k: nat) {
    && IsRoot(h, Ancestor(h, d, k))
    && Readable(h, Ancestor(h, d, k))
    && !HoldsSolution(h, Ancestor(h, d, k))
    && forall j: nat :: j < k ==> PassedBy(h, Ancestor(h, d, j))
  }

  /** The listing of the `k`-th ancestor of `d` throws, and the search passed every directory below it. */
  ghost predicate UnreadableOnTheWay(h: Host, d: string, k: nat) {
    && !Readable(h, Ancestor(h, d, k))
    && forall j: nat :: j < k ==> PassedBy(h, Ancestor(h, d, j))
  }

  /**
   * The search finds the nearest of `d` and its ancestors whose listing holds a .sln entry.
   * It reports the missing solution only when the root is reached with no such entry on the
   * way, and the unreadable directory only when the listing of the first directory it could
   * not pass throws.
   */
  lemma {:induction false} SolutionRootIsNearest(h: Host, d: string)
    requires ResolvesUpwards(h)
    ensures var r := SolutionRoot(h, d);
      r.Ok? ==> exists k: nat :: r.value == Ancestor(h, d, k) && NearestSolution(h, d, k)
    ensures SolutionRoot(h, d) == Err(NoSolution) ==> exists k: nat :: RootWithoutSolution(h, d, k)
    ensures SolutionRoot(h, d) == Err(UnreadableDirectory) ==> exists k: nat :: UnreadableOnTheWay(h, d, k)
    decreases if h.resolved(d) then 0 else 1, |d|
  {
    var r := SolutionRoot(h, d);
    if !Readable(h, d) {
      assert UnreadableOnTheWay(h, d, 0);
    } else if HoldsSolution(h, d) {
      assert d == Ancestor(h, d, 0) && NearestSolution(h, d, 0);
    } else if IsRoot(h, d) {
      assert RootWithoutSolution(h, d, 0);
    } else {
      var p := h.parent(d);
      SolutionRootIsNearest(h, p);
      AncestorOfParent(h, d);
      assert r == SolutionRoot(h, p);
      assert PassedBy(h, Ancestor(h, d, 0));
      if r.Ok? {
        var k: nat :| r.value == Ancestor(h, p, k) && NearestSolution(h, p, k);
        assert forall j: nat :: 0 < j <= k + 1 ==> Ancestor(h, d, j) == Ancestor(h, p, j - 1);
        assert NearestSolution(h, d, k + 1);
      } else if r.error == NoSolution {
        var k: nat :| RootWithoutSolution(h, p, k);
        assert forall j: nat :: 0 < j <= k + 1 ==> Ancestor(h, d, j) == Ancestor(h, p, j - 1);
        assert RootWithoutSolution(h, d, k + 1);
      } else {
        var k: nat :| UnreadableOnTheWay(h, p, k);
        assert forall j: nat :: 0 < j <= k + 1 ==> Ancestor(h, d, j) == Ancestor(h, p, j - 1);
        assert UnreadableOnTheWay(h, d, k + 1);
      }
    }
  }

  lemma AncestorOfParent(h: Host, d: string)
    ensures forall k: nat :: Ancestor(h, h.parent(d), k) == Ancestor(h, d, k + 1)
  {
  }

  /** `path.resolve(initialDirectory, dir)` made relative to the working directory. */
  function FromCwd(h: Host, dir: string): string {
    h.relative(h.cwd, h.resolve(h.initialDirectory, dir))
  }

  /**
   * `getRelativePath`, where `sectionKey` is the property key `config[type]` reads and
   * `Ok(None)` is its `null`.
   */
  function LookupPath(sectionKey: string, location: Location, config: JsValue, h: Host): (r: Result<Option<string>, Failure>)
    requires ResolvesUpwards(h)
  {
    if !Truthy(config) then Err(MissingConfig)
    else
      var section := Get(config, sectionKey);
      if !IsTypeofObject(section) then Ok(None)
      // typeof null is 'object', so a null section passes and reading its entry raises a TypeError.
      else if section.Null? then Err(TypeError)
      else
        var configured := Get(section, LocationName(location));
        if !Truthy(configured) then Ok(None)
        else if configured == Str(SolutionFolderMarker) then
          match SolutionRoot(h, h.initialDirectory)
          case Err(e) => Err(e)
          case Ok(root) => Ok(Some(FromCwd(h, h.relative(h.initialDirectory, root))))
        // path.resolve rejects an argument that is not a string.
        else if !configured.Str? then Err(TypeError)
        else Ok(Some(FromCwd(h, configured.s)))
  }

  /** `getRelativePath` for validated arguments: the section of the file kind, the entry of the location. */
  function RelativePath(a: Args, config: JsValue, h: Host): (r: Result<Option<string>, Failure>)
    requires ResolvesUpwards(h)
  {
    LookupPath(SectionName(a.kind), a.location, config, h)
  }

  /**
   * What the configuration says, read the way `getRelativePath` reads it: `None` for a
   * missing section or entry.
   */
  function ConfiguredDir(a: Args, config: JsValue): Option<JsValue> {
    var section := Get(config, SectionName(a.kind));
    if section.Obj? && Truthy(Get(section, LocationName(a.location)))
    then Some(Get(section, LocationName(a.location)))
    else None
  }

  /**
   * The configured value decides the path: no entry gives `null`; the marker is replaced
   * by the solution root found above the initial directory; any other string is used verbatim.
   */
  lemma MarkerSubstitution(a: Args, config: JsValue, h: Host)
    requires ResolvesUpwards(h)
    requires Truthy(config) && !Get(config, SectionName(a.kind)).Null?
    ensures ConfiguredDir(a, config).None? ==> RelativePath(a, config, h) == Ok(None)
    ensures ConfiguredDir(a, config) == Some(Str(SolutionFolderMarker)) ==>
      RelativePath(a, config, h) ==
        match SolutionRoot(h, h.initialDirectory)
        case Ok(root) => Ok(Some(FromCwd(h, h.relative(h.initialDirectory, root))))
        case Err(e) => Err(e)
    ensures forall s :: ConfiguredDir(a, config) == Some(Str(s)) && s != SolutionFolderMarker ==>
      RelativePath(a, config, h) == Ok(Some(FromCwd(h, s)))
  {
  }

  /** A null section is not caught by the typeof check and raises a TypeError. */
  lemma NullSectionRaises(a: Args, config: JsValue, h: Host)
    requires ResolvesUpwards(h)
    requires Truthy(config) && Get(config, SectionName(a.kind)).Null?
    ensures RelativePath(a, config, h) == Err(TypeError)
  {
  }

  predicate IsBackslash(c: char) {
    c == '\\'
  }

  /** `replace(/\\/g, '/')`. */
  function Normalise(p: string): string {
    ReplaceWhere(p, IsBackslash, '/')
  }

  /** Normalising turns every backslash into a slash, changes nothing else and is idempotent. */
  lemma NormaliseProperties(p: string)
    ensures |Normalise(p)| == |p|
    ensures forall i :: 0 <= i < |p| && p[i] != '\\' ==> Normalise(p)[i] == p[i]
    ensures forall i :: 0 <= i < |p| && p[i] == '\\' ==> Normalise(p)[i] == '/'
    ensures '\\' !in Normalise(p)
    ensures Normalise(Normalise(p)) == Normalise(p)
    ensures Normalise(p) == p <==> '\\' !in p
  {
  }

  /**
   * The output selection as written. `relativePath` is `getRelativePath`'s value
   * (`None` for null); the markdown branch compares the location with the marker.
   */
  function SelectOutput(extension: string, location: Location, relativePath: Option<string>, pathExists: string -> bool): (out: string)
    ensures relativePath.None? ==> out == NoPath
    ensures relativePath.Some? && relativePath.value == "" ==> out == NoPath
    ensures relativePath.Some? && relativePath.value != "" ==>
      var p := relativePath.value;
      && (location == Target ==> out == Normalise(p))
      && (extension == "md" ==> out == Normalise(p))
      && (location == Source && extension != "md" ==> out == if pathExists(p) then Normalise(p) else NoPath)
  {
    match relativePath
    case None => NoPath
    case Some(p) =>
      var normalised := Normalise(p);
      if normalised == "" then NoPath
      else if location == Target then normalised
      else if extension == "md" then
        (if LocationName(location) == SolutionFolderMarker then LocationName(location) else normalised)
      else if pathExists(p) then normalised
      else NoPath
  }

  lemma SelectOutputHasNoBackslash(extension: string, location: Location, relativePath: Option<string>, pathExists: string -> bool)
    ensures var out := SelectOutput(extension, location, relativePath, pathExists); out == NoPath || '\\' !in out
  {
    if relativePath.Some? {
      NormaliseProperties(relativePath.value);
    }
  }

  /** The script's observable end: text written to stdout, or an error report and exit code 1. */
  datatype Output = Printed(text: string) | Exited(failure: Failure)

  /** The whole script for arguments `argv`, the configuration and the host. */
  function Run(argv: seq<string>, config: JsValue, h: Host): (out: Output)
    requires ResolvesUpwards(h)
    ensures out.Printed? ==> out.text == NoPath || '\\' !in out.text
  {
    match ParseArgs(argv)
    case Err(f) => Exited(f)
    case Ok(a) =>
      match RelativePath(a, config, h)
      case Err(f) => Exited(f)
      case Ok(p) =>
        SelectOutputHasNoBackslash(a.extension, a.location, p, h.pathExists);
        Printed(SelectOutput(a.extension, a.location, p, h.pathExists))
  }

  /** A configuration without an entry for the requested kind and location prints `!`. */
  lemma MissingEntryPrintsNoPath(argv: seq<string>, config: JsValue, h: Host)
    requires ResolvesUpwards(h)
    requires ParseArgs(argv).Ok? && Truthy(config)
    requires Get(config, SectionName(ParseArgs(argv).value.kind)).Undefined?
    ensures Run(argv, config, h) == Printed(NoPath)
  {
  }

  /** A target path is printed whether or not it exists, unless it is the working directory itself. */
  lemma TargetIgnoresExistence(argv: seq<string>, config: JsValue, h: Host, p: string)
    requires ResolvesUpwards(h)
    requires ParseArgs(argv).Ok? && ParseArgs(argv).value.location == Target
    requires RelativePath(ParseArgs(argv).value, config, h) == Ok(Some(p))
    ensures p != "" ==> Run(argv, config, h) == Printed(Normalise(p))
    ensures p == "" ==> Run(argv, config, h) == Printed(NoPath)
  {
  }

  /** The property key `Object` converts to when it is used as `config[type]`. */
  const ObjectSourceText := "function Object() { [native code] }"

  /**
   * The property key `config[type]` reads for the value the lookup as written found: the
   * section name of an own entry; for an inherited member, the text its value converts
   * to (`__proto__` is `Object.prototype`, the others are built-in functions).
   */
  function SectionKeyAsWritten(t: TypeLookup): string {
    match t
    case OwnType(k) => SectionName(k)
    case InheritedMember(name) =>
      if name == "__proto__" then "[object Object]"
      else if name == "constructor" then ObjectSourceText
      else "function " + name + "() { [native code] }"
  }

  /** The whole script as written, with the lookup that also finds inherited members. */
  function RunAsWritten(argv: seq<string>, config: JsValue, h: Host): Output
    requires ResolvesUpwards(h)
  {
    var extension := if |argv| >= 1 then argv[0] else "undefined";
    var location := if |argv| >= 2 then Some(argv[1]) else None;
    match TypeLookupAsWritten(Some(extension))
    case None => Exited(UsageType)
    case Some(t) =>
      match LocationOf(location)
      case None => Exited(UsageLocation)
      case Some(loc) =>
        match LookupPath(SectionKeyAsWritten(t), loc, config, h)
        case Err(f) => Exited(f)
        case Ok(p) => Printed(SelectOutput(extension, loc, p, h.pathExists))
  }

  /** On the extensions it is meant for, the script as written behaves like the corrected one. */
  lemma AsWrittenAgreesOnKnownExtensions(argv: seq<string>, config: JsValue, h: Host)
    requires ResolvesUpwards(h)
    requires |argv| >= 1 && argv[0] in ExtensionToType
    ensures RunAsWritten(argv, config, h) == Run(argv, config, h)
  {
  }

  /**
   * From input to output: as written, `constructor source` gets past the usage check and,
   * with a configuration that has no key spelled like the source of `Object`, prints `!`
   * where the corrected script reports the usage error.
   */
  lemma AsWrittenPrintsNoPath(config: JsValue, h: Host)
    requires ResolvesUpwards(h)
    requires Truthy(config) && Get(config, ObjectSourceText).Undefined?
    ensures RunAsWritten(["constructor", "source"], config, h) == Printed(NoPath)
    ensures Run(["constructor", "source"], config, h) == Exited(UsageType)
  {
  }
}
