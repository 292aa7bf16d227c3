/**
 * Installing the linked ESLint packages: building the package-manager command from the
 * devDependencies, and turning a failed installation's output into one error message.
 */
module DevDependencies {
  import opened Wrappers
  import opened Seqs
  import opened Text
  import opened Diagnostics

  const EslintPrefix := "eslint"
  const InstallCommandPrefix := "pnpm add --save-dev "
  const FailurePrefix := "Failed to install packages: "
  const ThinSpace: char := '\U{2009}'

  /** One entry of the devDependencies object, in property order. */
  datatype Dependency = Dependency(name: string, version: string)

  predicate IsEslintPackage(d: Dependency) {
    StartsWith(d.name, EslintPrefix)
  }

  /** A package argument with its version quoted: `name@"version"`. */
  function PackageSpec(d: Dependency): string {
    d.name + "@\"" + d.version + "\""
  }

  /** `eslintPackages`: the ESLint entries as package arguments, separated by single spaces. */
  function EslintPackages(deps: seq<Dependency>): string {
    Join(Map(Filter(deps, IsEslintPackage), PackageSpec), " ")
  }

  /** The command passed to `execSync`. */
  function InstallCommand(deps: seq<Dependency>): string {
    InstallCommandPrefix + EslintPackages(deps)
  }

  predicate IsSpace(c: char) {
    c == ' '
  }

  /** A package argument whose name and version hold no space holds none either. */
  lemma SpecHasNoSpace(d: Dependency)
    requires ' ' !in d.name && ' ' !in d.version
    ensures Free(PackageSpec(d), IsSpace)
  {
    var spec := PackageSpec(d);
    forall i | 0 <= i < |spec|
      ensures !IsSpace(spec[i])
    {
      if i < |d.name| {
        assert spec[i] == d.name[i];
      } else if i >= |d.name| + 2 && i < |d.name| + 2 + |d.version| {
        assert spec[i] == d.version[i - |d.name| - 2];
      }
    }
  }

  /**
   * When no name or version contains a space, splitting the package list on spaces gives
   * back one `name@"version"` argument per ESLint entry, in devDependencies order, and the
   * command is the fixed prefix followed by that list.
   */
  lemma InstallCommandLists(deps: seq<Dependency>)
    requires exists d :: d in deps && IsEslintPackage(d)
    requires forall d :: d in deps ==> ' ' !in d.name && ' ' !in d.version
    ensures var eslint := Filter(deps, IsEslintPackage);
      var args := Split(EslintPackages(deps), IsSpace);
      && |args| == |eslint|
      && (forall k :: 0 <= k < |args| ==>
            args[k] == eslint[k].name + "@\"" + eslint[k].version + "\"" && StartsWith(eslint[k].name, EslintPrefix))
    ensures StartsWith(InstallCommand(deps), InstallCommandPrefix)
    ensures InstallCommand(deps)[|InstallCommandPrefix|..] == EslintPackages(deps)
  {
    var eslint := Filter(deps, IsEslintPackage);
    FilterMembers(deps, IsEslintPackage);
    var specs := Map(eslint, PackageSpec);
    forall k | 0 <= k < |specs|
      ensures Free(specs[k], IsSpace)
    {
      assert eslint[k] in deps;
      SpecHasNoSpace(eslint[k]);
    }
    var d :| d in deps && IsEslintPackage(d);
    assert d in eslint;
    SplitJoin(specs, ' ', IsSpace);
  }

  /** The ESLint entries of a concatenation are those of each part, in order. */
  lemma EslintEntriesKeepOrder(a: seq<Dependency>, b: seq<Dependency>)
    ensures Filter(a + b, IsEslintPackage) == Filter(a, IsEslintPackage) + Filter(b, IsEslintPackage)
    ensures forall d :: d in Filter(a + b, IsEslintPackage) <==> d in a + b && StartsWith(d.name, EslintPrefix)
  {
    FilterAppend(a, b, IsEslintPackage);
    FilterMembers(a + b, IsEslintPackage);
  }

  predicate IsLineBreak(c: char) {
    c == '\r' || c == '\n'
  }

  /** The end of the run of CR and LF characters that starts at `i`. */
  function RunEnd(s: string, i: nat): (k: nat)
    requires i <= |s|
    ensures i <= k <= |s|
    ensures forall m :: i <= m < k ==> IsLineBreak(s[m])
    ensures k == |s| || !IsLineBreak(s[k])
    decreases |s| - i
  {
    if i < |s| && IsLineBreak(s[i]) then RunEnd(s, i + 1) else i
  }

  /** `replace(/[\r\n]+/g, EOL)`: every maximal run of CR and LF characters becomes `eol`. */
  function CollapseLineBreaks(s: string, eol: string): string
    decreases |s|
  {
    if s == [] then []
    else if IsLineBreak(s[0]) then eol + CollapseLineBreaks(s[RunEnd(s, 1)..], eol)
    else [s[0]] + CollapseLineBreaks(s[1..], eol)
  }

  predicate EndsClean(a: string) {
    a == [] || !IsLineBreak(a[|a| - 1])
  }

  /** A run that ends inside `s` ends at the same place once more text follows. */
  lemma {:induction false} RunEndAppend(s: string, x: string, i: nat)
    requires i <= |s| && RunEnd(s, i) < |s|
    ensures RunEnd(s + x, i) == RunEnd(s, i)
    decreases |s| - i
  {
    assert (s + x)[i] == s[i];
    if IsLineBreak(s[i]) {
      RunEndAppend(s, x, i + 1);
    }
  }

  /** A run that fills the rest of `run` ends where `b` starts, if `b` does not continue it. */
  lemma {:induction false} RunEndAll(run: string, b: string, i: nat)
    requires i <= |run|
    requires forall m :: i <= m < |run| ==> IsLineBreak(run[m])
    requires b == [] || !IsLineBreak(b[0])
    ensures RunEnd(run + b, i) == |run|
    decreases |run| - i
  {
    if i < |run| {
      assert (run + b)[i] == run[i];
      RunEndAll(run, b, i + 1);
    } else if b != [] {
      assert (run + b)[i] == b[0];
    }
  }

  /** Collapsing is compositional at a boundary that does not split a run of line breaks. */
  lemma {:induction false} CollapseAppend(a: string, x: string, eol: string)
    requires EndsClean(a)
    ensures CollapseLineBreaks(a + x, eol) == CollapseLineBreaks(a, eol) + CollapseLineBreaks(x, eol)
    decreases |a|
  {
    if a == [] {
      assert a + x == x;
    } else {
      var ax := a + x;
      assert ax[0] == a[0];
      if IsLineBreak(a[0]) {
        var k := RunEnd(a, 1);
        assert !IsLineBreak(a[|a| - 1]);
        RunEndAppend(a, x, 1);
        assert ax[k..] == a[k..] + x;
        CollapseAppend(a[k..], x, eol);
      } else {
        assert ax[1..] == a[1..] + x;
        CollapseAppend(a[1..], x, eol);
      }
    }
  }

  /** A line without CR or LF is left as it is. */
  lemma {:induction false} CollapseWithoutBreaks(s: string, eol: string)
    requires forall i :: 0 <= i < |s| ==> !IsLineBreak(s[i])
    ensures CollapseLineBreaks(s, eol) == s
    decreases |s|
  {
    if s != [] {
      CollapseWithoutBreaks(s[1..], eol);
    }
  }

  /** A run of line breaks followed by text that does not continue it becomes one `eol`. */
  lemma CollapseRun(run: string, b: string, eol: string)
    requires |run| > 0 && forall i :: 0 <= i < |run| ==> IsLineBreak(run[i])
    requires b == [] || !IsLineBreak(b[0])
    ensures CollapseLineBreaks(run + b, eol) == eol + CollapseLineBreaks(b, eol)
  {
    var x := run + b;
    assert x[0] == run[0];
    RunEndAll(run, b, 1);
    assert x[|run|..] == b;
  }

  /**
   * Every maximal run of CR and LF characters becomes one EOL: with clean text on both
   * sides, the run contributes exactly `eol`, whatever its length and mix.
   */
  lemma {:induction false} RunBecomesOneEol(a: string, run: string, b: string, eol: string)
    requires EndsClean(a)
    requires |run| > 0 && forall i :: 0 <= i < |run| ==> IsLineBreak(run[i])
    requires b == [] || !IsLineBreak(b[0])
    ensures CollapseLineBreaks(a + (run + b), eol) == CollapseLineBreaks(a, eol) + eol + CollapseLineBreaks(b, eol)
  {
    CollapseAppend(a, run + b, eol);
    CollapseRun(run, b, eol);
  }

  predicate IsNotThinSpace(c: char) {
    c != ThinSpace
  }

  /** The characters `String.prototype.trim` removes: white space and line terminators. */
  predicate IsJsWhitespace(c: char) {
    || c == '\t' || c == '\n' || c == '\U{000B}' || c == '\U{000C}' || c == '\r' || c == ' '
    || c == '\U{00A0}' || c == '\U{1680}' || ('\U{2000}' <= c <= '\U{200A}')
    || c == '\U{2028}' || c == '\U{2029}' || c == '\U{202F}' || c == '\U{205F}'
    || c == '\U{3000}' || c == '\U{FEFF}'
  }

  /** The index of the first character from `i` on that `trim` keeps, or `|s|`. */
  function TrimStartIndex(s: string, i: nat): (k: nat)
    requires i <= |s|
    ensures i <= k <= |s|
    ensures forall m :: i <= m < k ==> IsJsWhitespace(s[m])
    ensures k == |s| || !IsJsWhitespace(s[k])
    decreases |s| - i
  {
    if i < |s| && IsJsWhitespace(s[i]) then TrimStartIndex(s, i + 1) else i
  }

  /** The end of what `trim` keeps of `s[lo..j]`: white space is dropped from the back down to `lo`. */
  function TrimEndIndex(s: string, lo: nat, j: nat): (k: nat)
    requires lo <= j <= |s|
    ensures lo <= k <= j
    ensures forall m :: k <= m < j ==> IsJsWhitespace(s[m])
    ensures k == lo || !IsJsWhitespace(s[k - 1])
    decreases j
  {
    if lo < j && IsJsWhitespace(s[j - 1]) then TrimEndIndex(s, lo, j - 1) else j
  }

  /** `s` is `r` surrounded by white space only. */
  ghost predicate IsTrimOf(s: string, r: string) {
    exists i, j :: 0 <= i <= j <= |s| && TrimmedAt(s, r, i, j)
  }

  /** `r` is `s[i..j]`, and everything outside that slice is white space. */
  ghost predicate TrimmedAt(s: string, r: string, i: nat, j: nat)
    requires i <= j <= |s|
  {
    && r == s[i..j]
    && (forall k :: 0 <= k < i ==> IsJsWhitespace(s[k]))
    && (forall k :: j <= k < |s| ==> IsJsWhitespace(s[k]))
  }

  /** `String.prototype.trim`. */
  function Trim(s: string): (r: string)
    ensures |r| <= |s|
    ensures forall c :: c in r ==> c in s
    ensures r == [] || (!IsJsWhitespace(r[0]) && !IsJsWhitespace(r[|r| - 1]))
  {
    var i := TrimStartIndex(s, 0);
    s[i..TrimEndIndex(s, i, |s|)]
  }

  /** Trimming removes white space from both ends and nothing else. */
  lemma TrimRemovesOnlyWhitespace(s: string)
    ensures IsTrimOf(s, Trim(s))
  {
    var i := TrimStartIndex(s, 0);
    var j := TrimEndIndex(s, i, |s|);
    assert TrimmedAt(s, Trim(s), i, j);
  }

  /** A line as the error message may show it: non-empty, trimmed and free of thin spaces. */
  predicate IsCleanLine(r: string) {
    r != "" && ThinSpace !in r && !IsJsWhitespace(r[0]) && !IsJsWhitespace(r[|r| - 1])
  }

  /** One element of the child process's output, cleaned as the script does. */
  function CleanLine(line: string, eol: string): (r: string)
    ensures r == "" || IsCleanLine(r)
  {
    var f := Filter(CollapseLineBreaks(line, eol), IsNotThinSpace);
    FilterMembers(CollapseLineBreaks(line, eol), IsNotThinSpace);
    assert ThinSpace !in f;
    Trim(f)
  }

  /** One element of `exception.output`, where `None` stands for a null stream. */
  function CleanEntry(entry: Option<string>, eol: string): (r: string)
    ensures entry.None? ==> r == ""
    ensures r == "" || IsCleanLine(r)
  {
    match entry
    case None => ""
    case Some(line) => CleanLine(line, eol)
  }

  predicate IsNonEmpty(s: string) {
    s != ""
  }

  /** Every entry of the output cleaned, in order. */
  function CleanEntries(output: seq<Option<string>>, eol: string): (r: seq<string>)
    ensures |r| == |output|
    ensures forall k :: 0 <= k < |output| ==> r[k] == CleanEntry(output[k], eol)
    decreases |output|
  {
    if output == [] then [] else [CleanEntry(output[0], eol)] + CleanEntries(output[1..], eol)
  }

  /** The cleaned output lines: every entry cleaned, and the empty results dropped. */
  function CleanOutput(output: seq<Option<string>>, eol: string): (lines: seq<string>)
    ensures |lines| <= |output|
    ensures forall k :: 0 <= k < |lines| ==> IsCleanLine(lines[k])
  {
    var cleaned := CleanEntries(output, eol);
    FilterMembers(cleaned, IsNonEmpty);
    Filter(cleaned, IsNonEmpty)
  }

  /**
   * Cleaning keeps every entry that cleans to a non-empty line, every line it keeps is the
   * cleaned form of some entry, and a null entry contributes nothing.
   */
  lemma CleanOutputDropsOnlyEmpty(output: seq<Option<string>>, eol: string)
    ensures forall k :: 0 <= k < |output| && CleanEntry(output[k], eol) != "" ==>
      CleanEntry(output[k], eol) in CleanOutput(output, eol)
    ensures forall line :: line in CleanOutput(output, eol) ==>
      exists k :: 0 <= k < |output| && line == CleanEntry(output[k], eol)
    ensures forall k :: 0 <= k < |output| && output[k].None? ==> CleanEntry(output[k], eol) !in CleanOutput(output, eol)
  {
    var cleaned := CleanEntries(output, eol);
    FilterMembers(cleaned, IsNonEmpty);
    forall k | 0 <= k < |output| && CleanEntry(output[k], eol) != ""
      ensures CleanEntry(output[k], eol) in CleanOutput(output, eol)
    {
      assert cleaned[k] in cleaned;
    }
  }

  lemma {:induction false} CleanEntriesAppend(a: seq<Option<string>>, b: seq<Option<string>>, eol: string)
    ensures CleanEntries(a + b, eol) == CleanEntries(a, eol) + CleanEntries(b, eol)
    decreases |a|
  {
    if a == [] {
      assert a + b == b;
    } else {
      assert (a + b)[0] == a[0];
      assert (a + b)[1..] == a[1..] + b;
      CleanEntriesAppend(a[1..], b, eol);
    }
  }

  /** A single entry gives its cleaned line, or nothing when that line is empty. */
  lemma CleanOutputSingle(entry: Option<string>, eol: string)
    ensures CleanOutput([entry], eol) == if CleanEntry(entry, eol) == "" then [] else [CleanEntry(entry, eol)]
  {
    assert CleanEntries([entry], eol) == [CleanEntry(entry, eol)];
  }

  /** Cleaning works entry by entry: the lines of two stretches of output are those of each, in order. */
  lemma CleanOutputAppend(a: seq<Option<string>>, b: seq<Option<string>>, eol: string)
    ensures CleanOutput(a + b, eol) == CleanOutput(a, eol) + CleanOutput(b, eol)
  {
    CleanEntriesAppend(a, b, eol);
    FilterAppend(CleanEntries(a, eol), CleanEntries(b, eol), IsNonEmpty);
  }

  /**
   * The message reported for a failed installation: the exception message, then "$ ",
   * then the cleaned lines joined by EOL.
   */
  function InstallErrorMessage(exceptionMessage: string, output: seq<Option<string>>, eol: string): string {
    exceptionMessage + "$ " + Join(CleanOutput(output, eol), eol)
  }

  /**
   * The exception message is followed directly by "$ " and the first cleaned line, with no
   * line break between them.
   */
  lemma InstallErrorMessageShape(exceptionMessage: string, output: seq<Option<string>>, eol: string)
    ensures var m := InstallErrorMessage(exceptionMessage, output, eol);
      var lines := CleanOutput(output, eol);
      && StartsWith(m, exceptionMessage + "$ ")
      && (lines == [] ==> m == exceptionMessage + "$ ")
      && (lines != [] ==> StartsWith(m, exceptionMessage + "$ " + lines[0]))
  {
    var lines := CleanOutput(output, eol);
    var joined := Join(lines, eol);
    JoinStartsWithFirst(lines, eol);
    var prefix := exceptionMessage + "$ ";
    if lines != [] {
      assert (prefix + joined)[..|prefix + lines[0]|] == prefix + joined[..|lines[0]|];
    }
  }

  /** The stderr line and the error object of a failed installation. */
  datatype InstallFailure = InstallFailure(stderr: string, error: ErrorObject)

  /**
   * What a failed installation reports: on stderr, the prefix directly followed by the
   * package list the command carried; to the error helper, the cleaned message.
   */
  function ReportInstallFailure(
    deps: seq<Dependency>, exceptionMessage: string, output: seq<Option<string>>, eol: string, scriptPath: string
  ): (r: InstallFailure)
    ensures r.stderr == FailurePrefix + EslintPackages(deps)
    ensures r.error.code.None? && r.error.path == scriptPath
    ensures r.error.message == InstallErrorMessage(exceptionMessage, output, eol)
    ensures StartsWith(r.error.message, exceptionMessage + "$ ")
    ensures r.stderr[|FailurePrefix|..] == InstallCommand(deps)[|InstallCommandPrefix|..]
  {
    InstallErrorMessageShape(exceptionMessage, output, eol);
    InstallFailure(
      FailurePrefix + EslintPackages(deps),
      ErrorObject(None, scriptPath, InstallErrorMessage(exceptionMessage, output, eol)))
  }
}
