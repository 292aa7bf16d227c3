# Lombiq Node.js Extensions: the decision logic of the build helpers

Node.js Extensions plugs front-end tooling into an MSBuild project. Around the tool
calls sit five small Node scripts and one C# gate class, and each of them holds a piece
of sequential logic. This project models that logic in Dafny and proves what the code
promises about it:

- **AssetsConfig** (`get-assets-config.js`): the `isValid` check of one asset group. It
  also covers the fallback from `assets-to-copy.json` to the `assetsToCopy` key of
  `package.json`, and the post-processing of the loaded configuration:
  - a falsy configuration is returned unchanged;
  - a truthy non-array becomes `null` and is reported;
  - invalid groups are reported and dropped;
  - an empty result becomes `null`;
  - a `null` or `undefined` group rejects the promise.
- **LintStyles** (`lint-styles.js`): `isFailed`, and `formatResult` as a pure map from one
  Stylelint result to the ordered warning records handed to the error helper.
- **GetPath** (`get-path.js`):
  - the argument checks (extension to configuration section, `source`/`target`);
  - the search upwards for the directory that holds a `.sln` file, which a listing that
    throws ends;
  - the `_solution_` marker;
  - the backslash-to-slash normalisation;
  - the choice between the path and the `!` sentinel.

  `ParseArgs` and `Run` look the extension up among the map's own keys, as the usage
  message intends. `RunAsWritten` keeps the lookup as written, which also finds the names
  `Object.prototype` supplies: there `constructor source` passes the usage check and
  prints `!` (see Findings).
- **DevDependencies** (`add-dev-dependencies.js`): the `pnpm add --save-dev` command
  built from the `eslint*` devDependencies. When the install fails, the process output is
  cleaned (runs of CR/LF become one EOL, thin spaces go, lines are trimmed, empty lines
  are dropped) and folded into the error message.
- **CopyAssets** (`copy-assets.js`): the copy plan, with one step per (group, source) pair
  in order. Each step is a copy with its `up` depth, an `NE0031` report for a
  directory that cannot be accessed, or the rejection `path.join` raises when an accessible
  source's group has no pattern.
- **SharedMutex** (`SharedMutex.cs`): `Execute`, written as a loop over an oracle of probe
  outcomes and stopwatch readings. It is proved equal to a recursive reference (`Decide`)
  and to the event trace that reference predicts (`Trace`).

The helpers are `Wrappers` (Option/Result), `Seqs` (filter and map with their lemmas),
`Text` (prefixes, join, split, character replacement), `JsValues` (JSON values with
JavaScript truthiness) and `Diagnostics` (the records passed to the error helper).

Node's `path` functions, the file system, `JSON.stringify` and the clock are
function-typed parameters or fields. The model assumes four things the code itself does
not check, each named again under "Left out":

- the gate's clock is paced: each timeout check comes at least one retry interval after
  the previous one (`SharedMutex.Execute`);
- `path.resolve(d, '..')` always gives a path in resolved form, and from a resolved
  directory other than the root a strictly shorter one (`GetPath.ResolvesUpwards`). A
  directory not yet in resolved form, such as a relative one, `C:/` or a UNC share
  without its trailing backslash, gets one normalising step of any length. Simplified
  POSIX and Windows hosts meet this (`GetPath.PosixHostResolvesUpwards`,
  `GetPath.Win32RootsResolveUpwards`);
- the round trip from the install command back to its entries needs names and versions
  without spaces (`DevDependencies.InstallCommandLists`); the command itself is built
  for any entries;
- the copy configuration is already well-typed: an array of groups with string sources,
  an optional string pattern and a string target (`CopyAssets.CopyAssets`).

## Model

| member | source | states |
|---|---|---|
| AssetsConfig.GroupErrors | Lombiq.NodeJs.Extensions/scripts/get-assets-config.js:31-41 | one message per failed check, each present exactly when its condition fails (sources not an array; pattern truthy but not a string; target not a string), in the order sources, pattern, target |
| AssetsConfig.IsValid | Lombiq.NodeJs.Extensions/scripts/get-assets-config.js:31-46 | a group is valid iff sources is an array, pattern is falsy or a string, and target is a string |
| AssetsConfig.UntilNullish | Lombiq.NodeJs.Extensions/scripts/get-assets-config.js:33 | the groups `filter` visits form a prefix of the array that holds no null or undefined group and stops just before the first one |
| AssetsConfig.PostProcess | Lombiq.NodeJs.Extensions/scripts/get-assets-config.js:74-87 | a falsy configuration is returned unchanged and silently; a truthy non-array gives null and the shape message; an array result is never empty and holds only valid groups; the promise rejects exactly when the array holds a null or undefined group |
| AssetsConfig.AssetsFileTakesPrecedence | Lombiq.NodeJs.Extensions/scripts/get-assets-config.js:55-61 | `LoadConfig`: a parsed assets-to-copy.json is the configuration whatever package.json holds |
| AssetsConfig.PackageJsonIsFallback | Lombiq.NodeJs.Extensions/scripts/get-assets-config.js:62-73 | `LoadConfig`: without assets-to-copy.json the configuration is package.json's `assetsToCopy` value, or undefined when package.json cannot be read, is not an object, or is an object without that key |
| AssetsConfig.GetAssetsConfigOutcomes | Lombiq.NodeJs.Extensions/scripts/get-assets-config.js:55-87 | `GetAssetsConfig`: a readable assets-to-copy.json is post-processed whatever package.json holds; with neither file nor key the promise resolves to undefined and nothing is reported |
| AssetsConfig.AllValidKeepsConfig | Lombiq.NodeJs.Extensions/scripts/get-assets-config.js:83-84 | an array without null groups resolves to itself, unchanged, iff it is non-empty and every group is valid |
| AssetsConfig.ArrayConfigKeepsValidGroups | Lombiq.NodeJs.Extensions/scripts/get-assets-config.js:83-84 | for an array without null groups the result is exactly the valid groups in their original order, or null when none is valid; one report per invalid group, and none iff every group is valid |
| AssetsConfig.ArrayConfigReports | Lombiq.NodeJs.Extensions/scripts/get-assets-config.js:42-44 | for an array without null groups, stderr is exactly the reports of the invalid groups, each with its JSON text and messages, in array order |
| AssetsConfig.RejectionReportsVisitedGroups | Lombiq.NodeJs.Extensions/scripts/get-assets-config.js:33-44 | an array whose first null or undefined group is at `k` rejects the promise, after the reports of the invalid groups before `k`, in order |
| AssetsConfig.ReportsMatchDroppedGroups | Lombiq.NodeJs.Extensions/scripts/get-assets-config.js:42-44 | for an array without null groups, a valid group is kept in the resolved array; an invalid group is left out of it, and its own report (its JSON text and its messages) is among the stderr lines |
| LintStyles.FormatResult | Lombiq.NodeJs.Extensions/scripts/lint-styles.js:13-41 | an ignored result gives no record; otherwise exactly one record per entry of the four lists, absent lists counting as empty; every record's path is the result's source |
| LintStyles.FormatResultOrder | Lombiq.NodeJs.Extensions/scripts/lint-styles.js:16-40 | records come as warnings, deprecations, invalid-option warnings, parse errors, each list in order. Warnings carry text, rule, line and column. Deprecations read `text (reference)`. The other three kinds carry their fixed code and no position |
| LintStyles.FailedIffReported | Lombiq.NodeJs.Extensions/scripts/lint-styles.js:4-41 | `IsFailed`: a result fails iff it is not ignored and is errored or yields at least one record |
| LintStyles.IgnoredIsSilent | Lombiq.NodeJs.Extensions/scripts/lint-styles.js:5-14 | an ignored result neither fails nor yields a record |
| LintStyles.FailedWithoutRecords | Lombiq.NodeJs.Extensions/scripts/lint-styles.js:4-41 | every result that is not ignored, is errored and has all four lists empty or absent fails while yielding no record |
| LintStyles.FormatResultsAppend | Lombiq.NodeJs.Extensions/scripts/lint-styles.js:45 | `FormatResults`: the formatter's records for a batch are those of each result in turn, without loss or reordering |
| GetPath.AsWrittenAcceptsInheritedMember | Lombiq.NodeJs.Extensions/scripts/get-path.js:15-31 | the lookup as written finds the inherited `constructor`, so the usage guard lets an extension other than js, md and scss through |
| GetPath.KindOf | Lombiq.NodeJs.Extensions/scripts/get-path.js:15-31 | exactly js, md and scss are accepted, selecting scripts, markdown and styles respectively |
| GetPath.KindOfRejectsInheritedMembers | Lombiq.NodeJs.Extensions/scripts/get-path.js:15-31 | the own-key lookup agrees with the written one on every accepted extension and rejects every name inherited from `Object.prototype` |
| GetPath.LocationOf | Lombiq.NodeJs.Extensions/scripts/get-path.js:33-36 | only `source` and `target` are accepted, and each maps back to its own name |
| GetPath.ParseArgs | Lombiq.NodeJs.Extensions/scripts/get-path.js:24-36 | a missing or unknown extension is the first usage error; a missing or wrong location after a good extension is the second; otherwise the arguments are the first two words, with the extension's section |
| GetPath.PosixParent | Lombiq.NodeJs.Extensions/scripts/get-path.js:42 | a simplified parent, not Node's: the parent of any path is rooted, and for a rooted path other than `/` it is a strictly shorter prefix |
| GetPath.PosixHostResolvesUpwards | Lombiq.NodeJs.Extensions/scripts/get-path.js:41-44 | a host whose `..` is the simplified POSIX parent and whose resolved paths are the rooted ones brings the upward search to the root |
| GetPath.Win32RootSteps | Lombiq.NodeJs.Extensions/scripts/get-path.js:42 | `C:/` steps to `C:\` of the same length and the share `\\server\share` to `\\server\share\`, one longer; both roots are their own parents |
| GetPath.Win32RootsResolveUpwards | Lombiq.NodeJs.Extensions/scripts/get-path.js:41-44 | a host with those Windows root steps, and the simplified POSIX parent elsewhere, still brings the upward search to the root |
| GetPath.SolutionRoot | Lombiq.NodeJs.Extensions/scripts/get-path.js:38-45 | the search fails only with the missing-solution error or with the unreadable-directory error of a throwing `fs.readdirSync` |
| GetPath.SolutionRootIsNearest | Lombiq.NodeJs.Extensions/scripts/get-path.js:38-45 | the search returns the nearest of the start directory and its ancestors whose listing has a `.sln` entry, every directory below it read and not the root. It reports the missing solution only after reading the root with no such entry on the way, and the unreadable directory only for the first directory it reached whose listing throws |
| GetPath.MarkerSubstitution | Lombiq.NodeJs.Extensions/scripts/get-path.js:55-60 | `LookupPath` for the file kind's section: a missing section or entry gives null; the value `_solution_` is replaced by the solution root made relative to the working directory, and a failed search passes its error on; any other string is used verbatim |
| GetPath.NullSectionRaises | Lombiq.NodeJs.Extensions/scripts/get-path.js:56-58 | a null section passes the `typeof` check, and reading its entry raises a TypeError |
| GetPath.NormaliseProperties | Lombiq.NodeJs.Extensions/scripts/get-path.js:81 | `Normalise`: turns every backslash into a slash, changes nothing else, keeps the length, leaves no backslash and is idempotent |
| GetPath.SelectOutput | Lombiq.NodeJs.Extensions/scripts/get-path.js:79-94 | null or an empty path prints `!`; a target prints the normalised path; markdown prints it too, because the location never equals the marker; any other source prints it only when the path exists, otherwise `!` |
| GetPath.SelectOutputHasNoBackslash | Lombiq.NodeJs.Extensions/scripts/get-path.js:78-94 | what is printed is `!` or a path without backslashes |
| GetPath.Run | Lombiq.NodeJs.Extensions/scripts/get-path.js:24-102 | every printed output of the script is `!` or free of backslashes |
| GetPath.MissingEntryPrintsNoPath | Lombiq.NodeJs.Extensions/scripts/get-path.js:56 | with valid arguments and no section for the file kind the script prints `!` |
| GetPath.AsWrittenAgreesOnKnownExtensions | Lombiq.NodeJs.Extensions/scripts/get-path.js:15-31 | `RunAsWritten`, the script with the lookup as written: for js, md and scss it prints or exits like the corrected `Run` |
| GetPath.AsWrittenPrintsNoPath | Lombiq.NodeJs.Extensions/scripts/get-path.js:24-94 | `RunAsWritten`: `constructor source` passes the written usage check, looks up the section keyed by `Object`'s source text and prints `!`, where the corrected script exits with the first usage error |
| GetPath.TargetIgnoresExistence | Lombiq.NodeJs.Extensions/scripts/get-path.js:84-87 | a target path is printed normalised whether or not it exists; only an empty path prints `!` |
| DevDependencies.InstallCommandLists | Lombiq.NodeJs.Extensions/scripts/add-dev-dependencies.js:11-21 | `InstallCommand` is the fixed `pnpm add --save-dev ` prefix and the `EslintPackages` list. Split on spaces, that list gives one `name@"version"` argument per `eslint*` entry, in devDependencies order |
| DevDependencies.EslintEntriesKeepOrder | Lombiq.NodeJs.Extensions/scripts/add-dev-dependencies.js:11-13 | the selected entries are exactly those whose name starts with `eslint`, and selection distributes over concatenation, so entry order is kept |
| DevDependencies.SpecHasNoSpace | Lombiq.NodeJs.Extensions/scripts/add-dev-dependencies.js:14 | a `name@"version"` argument has a space only where its name or version has one |
| DevDependencies.RunBecomesOneEol | Lombiq.NodeJs.Extensions/scripts/add-dev-dependencies.js:28 | `CollapseLineBreaks`: a maximal run of CR and LF characters, of any length and mix, contributes exactly one EOL |
| DevDependencies.CollapseAppend | Lombiq.NodeJs.Extensions/scripts/add-dev-dependencies.js:28 | collapsing line breaks is compositional at any boundary that does not split a run |
| DevDependencies.CollapseWithoutBreaks | Lombiq.NodeJs.Extensions/scripts/add-dev-dependencies.js:28 | a line without CR or LF is left unchanged |
| DevDependencies.CollapseRun | Lombiq.NodeJs.Extensions/scripts/add-dev-dependencies.js:28 | a run at the start of a line becomes one EOL followed by the collapsed rest |
| DevDependencies.Trim | Lombiq.NodeJs.Extensions/scripts/add-dev-dependencies.js:28 | the trimmed text is no longer than the input, draws its characters from it, and neither starts nor ends with white space |
| DevDependencies.TrimRemovesOnlyWhitespace | Lombiq.NodeJs.Extensions/scripts/add-dev-dependencies.js:28 | the input is the trimmed text with only white space before and after it |
| DevDependencies.CleanLine | Lombiq.NodeJs.Extensions/scripts/add-dev-dependencies.js:28 | a cleaned line is empty, or non-empty, free of thin spaces and trimmed at both ends |
| DevDependencies.CleanEntry | Lombiq.NodeJs.Extensions/scripts/add-dev-dependencies.js:28 | a null output stream cleans to the empty string; any other entry cleans to an empty or a clean line |
| DevDependencies.CleanEntries | Lombiq.NodeJs.Extensions/scripts/add-dev-dependencies.js:26-28 | each output entry is cleaned in place, in order |
| DevDependencies.CleanOutput | Lombiq.NodeJs.Extensions/scripts/add-dev-dependencies.js:26-29 | no more lines than output entries, and every line is non-empty, trimmed and free of thin spaces |
| DevDependencies.CleanOutputDropsOnlyEmpty | Lombiq.NodeJs.Extensions/scripts/add-dev-dependencies.js:29 | every entry that cleans to a non-empty line is kept, every kept line is the cleaned form of some entry, and a null entry contributes nothing |
| DevDependencies.CleanOutputSingle | Lombiq.NodeJs.Extensions/scripts/add-dev-dependencies.js:26-29 | one entry gives its cleaned line, or nothing when that is empty; with `CleanOutputAppend` this fixes every line of the output and its order |
| DevDependencies.CleanOutputAppend | Lombiq.NodeJs.Extensions/scripts/add-dev-dependencies.js:26-29 | cleaning works entry by entry: two stretches of output give their lines in order |
| DevDependencies.InstallErrorMessageShape | Lombiq.NodeJs.Extensions/scripts/add-dev-dependencies.js:31-36 | `InstallErrorMessage`: the message is the exception message followed directly by `$ ` and the first cleaned line, with no line break between them, or by `$ ` alone when nothing is left |
| DevDependencies.ReportInstallFailure | Lombiq.NodeJs.Extensions/scripts/add-dev-dependencies.js:23-36 | stderr is `Failed to install packages: ` followed by the same package list the command carried; the error object has no code, the script's path, and the exception message followed by `$ ` and the cleaned output |
| CopyAssets.DepthCountsSegments | Lombiq.NodeJs.Extensions/scripts/copy-assets.js:43 | `Depth`: the depth is the number of `/` and `\` separators plus one, and the pieces it counts rejoin into the path with every separator as a slash |
| CopyAssets.InaccessibleError | Lombiq.NodeJs.Extensions/scripts/copy-assets.js:48-52 | the report for an inaccessible directory has code `NE0031` and path `AssetCopy` |
| CopyAssets.PlanSource | Lombiq.NodeJs.Extensions/scripts/copy-assets.js:27-53 | the normalised directory is reported iff it cannot be accessed; it is copied iff it can be and the group has a pattern. The copy goes from the joined pattern path into the group's target, with `up` equal to the separator count plus one |
| CopyAssets.PlanGroup | Lombiq.NodeJs.Extensions/scripts/copy-assets.js:27-53 | one step per source of the group, in source order |
| CopyAssets.PlanLength | Lombiq.NodeJs.Extensions/scripts/copy-assets.js:54 | the flattened plan has as many steps as the groups have sources |
| CopyAssets.PlanIndex | Lombiq.NodeJs.Extensions/scripts/copy-assets.js:25-55 | the step of source `j` of group `i` sits right after the steps of all earlier groups' sources |
| CopyAssets.PlanCoversEverySource | Lombiq.NodeJs.Extensions/scripts/copy-assets.js:25-55 | `Plan`: exactly one step per (group, source) pair, ordered by group and then by source, each depending only on its own group and source |
| CopyAssets.CopiesGoToOwnTarget | Lombiq.NodeJs.Extensions/scripts/copy-assets.js:37-38 | every copy goes into the target of the group its source belongs to |
| CopyAssets.CopyAssets | Lombiq.NodeJs.Extensions/scripts/copy-assets.js:57-62 | without an `assetsToCopy` configuration there is no step; otherwise the steps are the plan |
| SharedMutex.Decide | Lombiq.NodeJs.Extensions/CustomExecTasks/SharedMutex.cs:26-37 | the first free probe wins unless an earlier check found the stopwatch strictly beyond the timeout; every probe before the decision failed and every check before it was within the timeout |
| SharedMutex.Execute | Lombiq.NodeJs.Extensions/CustomExecTasks/SharedMutex.cs:21-46 | the loop terminates and returns the work's result after an acquisition and false after a timeout. Its events are exactly `Trace`, the trace the reference decision predicts |
| SharedMutex.ProbeComesFirst | Lombiq.NodeJs.Extensions/CustomExecTasks/SharedMutex.cs:23-32 | the first event is a probe, so one probe precedes any timeout check whatever the timeout, and a free first probe acquires |
| SharedMutex.WaitsAreNumbered | Lombiq.NodeJs.Extensions/CustomExecTasks/SharedMutex.cs:23-28 | with `logWait` the wait messages are numbered 1, 2, 3, ..., one per failed probe; without it there are none |
| SharedMutex.CheckAfterSleep | Lombiq.NodeJs.Extensions/CustomExecTasks/SharedMutex.cs:30-32 | every sleep is followed at once by the timeout check, and no check comes before a sleep |
| SharedMutex.WorkRunsOnceAfterRelease | Lombiq.NodeJs.Extensions/CustomExecTasks/SharedMutex.cs:39-45 | after an acquisition the mutex is released and then the work runs, once, as the last step. One acquisition message is logged when `logWait` is given, and no timeout is reported |
| SharedMutex.TimeoutSkipsWork | Lombiq.NodeJs.Extensions/CustomExecTasks/SharedMutex.cs:32-36 | on timeout the work never runs and the mutex is never released. The timeout is reported exactly once when `logError` is given, and no acquisition is reported |
| SharedMutex.CallbacksDoNotSteer | Lombiq.NodeJs.Extensions/CustomExecTasks/SharedMutex.cs:28-39 | the decision does not depend on the callbacks, and removing their messages leaves the trace of a gate with none |
| SharedMutex.ProbesBounded | Lombiq.NodeJs.Extensions/CustomExecTasks/SharedMutex.cs:26-37 | the unexpired rounds times the retry interval never exceed the timeout |
| SharedMutex.ShortTimeoutGivesUpAtOnce | Lombiq.NodeJs.Extensions/CustomExecTasks/SharedMutex.cs:30-35 | with a timeout shorter than one interval, a failed first probe is followed by a timeout |

## Left out

- File and process I/O is left out: reading the JSON files, `fs.readdirSync`,
  `fs.existsSync`, `fs.promises.access`, `process.chdir`, `execSync` with pnpm, `copyfiles`
  and `stylelint.lint`. Their results are parameters (`Option` inputs or oracle fields), or
  the model stops at the plan or command handed to them. A throwing `fs.readdirSync` is the
  `None` listing, which ends the search with `UnreadableDirectory`.
- `JSON.parse` and `JSON.stringify`, and Node's `path.resolve`, `path.relative`,
  `path.normalize` and `path.join`, are opaque functions. Only the separator counting and
  the backslash replacement are modelled.
- handle-error.js, get-config.js and get-cwd.js are not part of this model. Their inputs
  are the `ErrorObject` and `WarningObject` records, and their outputs are parameters.
- Verbose logging, the `GET_RELATIVE_PATH` diagnostics written to stderr
  (get-path.js:63-71) and the `Promise` sequencing are left out. So is the order in which
  `Promise.all` lets the copies finish.
- JSON numbers are reals; NaN and number-to-string conversions are not modelled.
- A `LintResult` list is either absent or a real list; other non-array values are not
  modelled.
- The real named mutex, cross-process contention, `Thread.Sleep` and `Stopwatch` are an
  oracle of probe outcomes and stopwatch readings. Time is whole milliseconds instead of
  `TimeSpan` ticks, and the elapsed time in the "Acquired" message is not recorded.
- SharedMutex.Execute: requires a paced clock: a positive retry interval, a first check at
  least one interval after the start, and each check at least one interval after the
  previous one. Other intervals are not modelled. With 0 the real stopwatch still ends
  the loop. With -1 (`Timeout.Infinite`) the first `Thread.Sleep` blocks for ever. Below
  -1, `Thread.Sleep` throws `ArgumentOutOfRangeException`.
- SharedMutex.Execute: knows only two endings, acquisition followed by the work, and the
  timeout. The exceptions that escape `Execute` are not modelled:
  - `new Mutex(false, name)` at SharedMutex.cs:25 can throw, for instance on an
    inaccessible or invalid name;
  - `WaitOne(0)` at SharedMutex.cs:26 throws `AbandonedMutexException` when the previous
    owner ended without releasing. This thread then owns the mutex, and the exception
    escapes with no `ReleaseMutex` and no work;
  - `logWait`, `logError` and `functionToExecute` can throw, and their exceptions escape
    as well.
- GetPath.SolutionRoot: requires `ResolvesUpwards` of the host: `path.resolve(d, '..')` is
  in resolved form, and shorter than `d` when `d` is resolved and not its own parent.
  On POSIX and on Windows, Node's `path.resolve` returns resolved paths and drops the
  last segment of a resolved non-root one. `C:/` and `\\server\share` take one
  normalising step to the root of equal or greater length, and the measure allows that
  step. `PosixHostResolvesUpwards` and `Win32RootsResolveUpwards` show simplified hosts
  that meet the requirement. A host whose parent paths cycle, or keep growing after
  normalisation, is not modelled. The same requirement is carried
  by the members that run the search: `SolutionRootIsNearest`, `LookupPath`,
  `RelativePath`, `Run`, `RunAsWritten`, `MarkerSubstitution`, `NullSectionRaises`,
  `MissingEntryPrintsNoPath`, `TargetIgnoresExistence`, `AsWrittenAgreesOnKnownExtensions`
  and `AsWrittenPrintsNoPath`.
- AssetsConfig.ArrayConfigKeepsValidGroups: requires the array to hold no null or
  undefined group. PostProcess states the rejection such a group causes, and
  `RejectionReportsVisitedGroups` states the reports written before it. The same
  requirement holds for `ArrayConfigReports`, `AllValidKeepsConfig` and
  `ReportsMatchDroppedGroups`: with a null group the filter stops there, and later invalid
  groups are never reported.
- DevDependencies.InstallCommandLists: requires at least one ESLint entry and names and
  versions without spaces. Otherwise splitting the list on spaces does not give the
  entries back, although the command string is still built as stated.
- CopyAssets.CopyAssets: assumes well-formed groups. The TypeErrors that a malformed
  configuration raises are not modelled: a non-array configuration at `config.map`
  (copy-assets.js:26), non-array sources at `sources.map` (:27), a non-string source at
  `path.normalize` (:29) and a non-string pattern at `path.join` (:37); the catch at
  copy-assets.js:62-64 would report each of them. Only the missing pattern of a
  well-typed group is modelled, as the `JoinRejected` step.
- SharedMutex: the default retry interval of 100 ms (SharedMutex.cs:13) is not a constant
  of the model; the interval is a parameter of the gate.
- The `files` option of lint-styles.js, and the exits on Stylelint or installation
  failures (`process.exit(1)`), are left out beyond the records that precede them.

## Findings

| source | as written | input that shows it | evidently intended | confidence | as-written member | corrected member |
|---|---|---|---|---|---|---|
| Lombiq.NodeJs.Extensions/scripts/get-path.js:15-31 | `extensionToTypeMap[extension]` reads a plain object literal, so names inherited from `Object.prototype` are truthy and pass the `!type` usage check | first argument `constructor` (or `toString`, `valueOf`, ...) with location `source` | only `js`, `md` and `scss` are accepted; anything else reports the usage error | not executed | GetPath.AsWrittenPrintsNoPath | GetPath.KindOf |
