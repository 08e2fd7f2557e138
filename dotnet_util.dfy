/**
  The part of the dotnet CLI wrapper that interprets the tool's output: the
  per-command success and failure criteria, the line scan that turns captured
  output into a verdict, the parser for the `list package` table, and the loop
  that re-adds every outdated package of every project.

  Running the tool is not modelled: every operation takes the lines the process
  runner captured as an input.
 */
module DotnetUtil {
  import opened Wrappers
  import opened Text
  import CommandLine
  import ArgumentUtil

  /** A predicate over one captured line. */
  type Criterion = string -> bool

  // ---------------------------------------------------------------- criteria

  /** `dotnet run` has no success marker: any line counts. */
  predicate RunSucceeded(output: string)
  {
    true
  }

  predicate RestoreSucceeded(output: string)
  {
    ContainsIgnoreCase(output, "Restore completed")
  }

  predicate BuildSucceeded(output: string)
  {
    ContainsIgnoreCase(output, "0 Error(s)")
  }

  predicate TestSucceeded(output: string)
  {
    || ContainsIgnoreCase(output, "test succeeded")
    || ContainsIgnoreCase(output, "Passed!")
    || ContainsIgnoreCase(output, "Test Run Successful.")
  }

  predicate TestFailed(output: string)
  {
    ContainsIgnoreCase(output, "build failed") || ContainsIgnoreCase(output, "test failed")
  }

  predicate PackSucceeded(output: string)
  {
    ContainsIgnoreCase(output, "0 Error(s)")
  }

  predicate RemovePackageSucceeded(output: string)
  {
    ContainsIgnoreCase(output, "Successfully removed") || ContainsIgnoreCase(output, "does not contain")
  }

  predicate AddPackageSucceeded(output: string)
  {
    ContainsIgnoreCase(output, "PackageReference for package") && ContainsIgnoreCase(output, "updated in file")
  }

  predicate CleanSucceeded(output: string)
  {
    ContainsIgnoreCase(output, "Cleaned")
  }

  // ---------------------------------------------------------------- the line scan

  /** The optional failure criterion, absent meaning "never fails". */
  predicate Fails(failureCriteria: Option<Criterion>, output: string)
  {
    failureCriteria.Some? && failureCriteria.value(output)
  }

  /** Line `i` is the first line that either criterion recognises. */
  ghost predicate Decisive(lines: seq<string>, i: int, successCriteria: Criterion, failureCriteria: Option<Criterion>)
  {
    && 0 <= i < |lines|
    && (successCriteria(lines[i]) || Fails(failureCriteria, lines[i]))
    && forall j :: 0 <= j < i ==> !successCriteria(lines[j]) && !Fails(failureCriteria, lines[j])
  }

  /** The verdict of the scan, line by line: success is tested before failure, and no match is a failure. */
  function Classify(lines: seq<string>, successCriteria: Criterion, failureCriteria: Option<Criterion>): bool
  {
    if lines == [] then false
    else if successCriteria(lines[0]) then true
    else if Fails(failureCriteria, lines[0]) then false
    else Classify(lines[1..], successCriteria, failureCriteria)
  }

  /** The verdict is true exactly when the first decisive line satisfies the success criterion. */
  lemma {:induction false} ClassifyFirstMatch(lines: seq<string>, successCriteria: Criterion, failureCriteria: Option<Criterion>)
    ensures Classify(lines, successCriteria, failureCriteria)
            <==> exists i :: Decisive(lines, i, successCriteria, failureCriteria) && successCriteria(lines[i])
  {
    if lines != [] && !successCriteria(lines[0]) && !Fails(failureCriteria, lines[0]) {
      var rest := lines[1..];
      ClassifyFirstMatch(rest, successCriteria, failureCriteria);
      if Classify(rest, successCriteria, failureCriteria) {
        var i :| Decisive(rest, i, successCriteria, failureCriteria) && successCriteria(rest[i]);
        assert Decisive(lines, i + 1, successCriteria, failureCriteria);
      }
      if exists i :: Decisive(lines, i, successCriteria, failureCriteria) && successCriteria(lines[i]) {
        var i :| Decisive(lines, i, successCriteria, failureCriteria) && successCriteria(lines[i]);
        assert i != 0;
        assert Decisive(rest, i - 1, successCriteria, failureCriteria);
      }
    } else if lines != [] && successCriteria(lines[0]) {
      assert Decisive(lines, 0, successCriteria, failureCriteria);
    }
  }

  /** The first decisive line decides alone; if there is none, the verdict is false. */
  lemma NoDecisiveLine(lines: seq<string>, successCriteria: Criterion, failureCriteria: Option<Criterion>)
    requires forall i :: 0 <= i < |lines| ==> !successCriteria(lines[i]) && !Fails(failureCriteria, lines[i])
    ensures !Classify(lines, successCriteria, failureCriteria)
  {
    ClassifyFirstMatch(lines, successCriteria, failureCriteria);
  }

  /** A line that satisfies both criteria counts as a success. */
  lemma {:induction false} SuccessTestedFirst(before: seq<string>, line: string, after: seq<string>,
                                              successCriteria: Criterion, failureCriteria: Option<Criterion>)
    requires forall j :: 0 <= j < |before| ==> !successCriteria(before[j]) && !Fails(failureCriteria, before[j])
    requires successCriteria(line) && Fails(failureCriteria, line)
    ensures Classify(before + [line] + after, successCriteria, failureCriteria)
  {
    var lines := before + [line] + after;
    assert Decisive(lines, |before|, successCriteria, failureCriteria);
    ClassifyFirstMatch(lines, successCriteria, failureCriteria);
  }

  /** Scan order decides a race: a failure line reached before any decisive line, and not itself a success, makes the verdict false whatever follows. */
  lemma FailureFirst(before: seq<string>, line: string, after: seq<string>,
                     successCriteria: Criterion, failureCriteria: Option<Criterion>)
    requires forall j :: 0 <= j < |before| ==> !successCriteria(before[j]) && !Fails(failureCriteria, before[j])
    requires Fails(failureCriteria, line) && !successCriteria(line)
    ensures !Classify(before + [line] + after, successCriteria, failureCriteria)
  {
    var lines := before + [line] + after;
    assert Decisive(lines, |before|, successCriteria, failureCriteria);
    ClassifyFirstMatch(lines, successCriteria, failureCriteria);
  }

  /** Without a failure criterion the verdict is true exactly when some line satisfies the success criterion. */
  lemma WithoutFailureCriteria(lines: seq<string>, successCriteria: Criterion)
    ensures Classify(lines, successCriteria, None) <==> exists i :: 0 <= i < |lines| && successCriteria(lines[i])
  {
    ClassifyFirstMatch(lines, successCriteria, None);
    if exists i :: 0 <= i < |lines| && successCriteria(lines[i]) {
      var k :| 0 <= k < |lines| && successCriteria(lines[k]);
      var i := 0;
      while !successCriteria(lines[i])
        invariant 0 <= i <= k
        invariant forall j :: 0 <= j < i ==> !successCriteria(lines[j])
        decreases k - i
      {
        i := i + 1;
      }
      assert Decisive(lines, i, successCriteria, None);
    }
  }

  /**
    `ExecuteCommand`: scans the captured lines in order, returns true at the first
    line the success criterion accepts and false at the first line the failure
    criterion accepts; false when no line is recognised.
   */
  method ExecuteCommand(processOutput: seq<string>, successCriteria: Criterion, failureCriteria: Option<Criterion>)
    returns (result: bool)
    ensures result <==> exists i :: Decisive(processOutput, i, successCriteria, failureCriteria) && successCriteria(processOutput[i])
    ensures result == Classify(processOutput, successCriteria, failureCriteria)
  {
    for n := 0 to |processOutput|
      invariant forall j :: 0 <= j < n ==> !successCriteria(processOutput[j]) && !Fails(failureCriteria, processOutput[j])
      invariant Classify(processOutput[n..], successCriteria, failureCriteria) == Classify(processOutput, successCriteria, failureCriteria)
    {
      var output := processOutput[n];
      if successCriteria(output) {
        assert Decisive(processOutput, n, successCriteria, failureCriteria);
        return true;
      }
      if failureCriteria.Some? && failureCriteria.value(output) {
        assert Decisive(processOutput, n, successCriteria, failureCriteria);
        return false;
      }
      assert processOutput[n..][1..] == processOutput[n + 1..];
    }
    return false;
  }

  // ---------------------------------------------------------------- the commands

  /** The argument string handed to the process: the subcommand, one space, then the built arguments. */
  function ProcessArguments(command: string, arguments: string): string
  {
    command + " " + arguments
  }

  /** The subcommand is the first token of the process's argument string, followed by the tokens of the built arguments. */
  lemma CommandComesFirst(command: string, arguments: string)
    requires CommandLine.BareValue(command)
    ensures CommandLine.ArgTokens(ProcessArguments(command, arguments)) == [command] + CommandLine.ArgTokens(arguments)
  {
    assert ProcessArguments(command, arguments) == command + (" " + arguments);
    CommandLine.ArgTokensFirst(command, " " + arguments);
    CommandLine.ArgTokensSpace(arguments);
  }

  /** What `Restore` hands the process: `restore`, the quoted path, then the verbosity flag exactly when one is given. */
  lemma RestoreProcessArguments(path: string, verbosity: Option<string>)
    requires '"' !in path && ArgumentUtil.Readable(verbosity)
    ensures CommandLine.ArgTokens(ProcessArguments("restore", ArgumentUtil.Restore(path, verbosity)))
            == ["restore", CommandLine.Quote(path)] + CommandLine.Tokens(ArgumentUtil.RestoreFlags(verbosity))
  {
    var fs := ArgumentUtil.RestoreFlags(verbosity);
    ArgumentUtil.RestoreRenders(path, verbosity);
    CommandComesFirst("restore", ArgumentUtil.Restore(path, verbosity));
    CommandLine.ArgTokensRendered(path, fs);
  }

  /** `Run`: succeeds exactly when the process printed anything at all. */
  method Run(processOutput: seq<string>) returns (success: bool)
    ensures success <==> processOutput != []
  {
    success := ExecuteCommand(processOutput, RunSucceeded, None);
    WithoutFailureCriteria(processOutput, RunSucceeded);
    if processOutput != [] {
      assert RunSucceeded(processOutput[0]);
    }
  }

  method Restore(processOutput: seq<string>) returns (success: bool)
    ensures success <==> exists i :: 0 <= i < |processOutput| && RestoreSucceeded(processOutput[i])
  {
    success := ExecuteCommand(processOutput, RestoreSucceeded, None);
    WithoutFailureCriteria(processOutput, RestoreSucceeded);
  }

  method Build(processOutput: seq<string>) returns (success: bool)
    ensures success <==> exists i :: 0 <= i < |processOutput| && BuildSucceeded(processOutput[i])
  {
    success := ExecuteCommand(processOutput, BuildSucceeded, None);
    WithoutFailureCriteria(processOutput, BuildSucceeded);
  }

  /** `Test` is the one command with a failure criterion: the earlier of a success and a failure line decides. */
  method Test(processOutput: seq<string>) returns (success: bool)
    ensures success <==> exists i :: Decisive(processOutput, i, TestSucceeded, Some(TestFailed)) && TestSucceeded(processOutput[i])
    ensures success == Classify(processOutput, TestSucceeded, Some(TestFailed))
  {
    success := ExecuteCommand(processOutput, TestSucceeded, Some(TestFailed));
  }

  method Pack(processOutput: seq<string>) returns (success: bool)
    ensures success <==> exists i :: 0 <= i < |processOutput| && PackSucceeded(processOutput[i])
  {
    success := ExecuteCommand(processOutput, PackSucceeded, None);
    WithoutFailureCriteria(processOutput, PackSucceeded);
  }

  method RemovePackage(processOutput: seq<string>) returns (success: bool)
    ensures success <==> exists i :: 0 <= i < |processOutput| && RemovePackageSucceeded(processOutput[i])
  {
    success := ExecuteCommand(processOutput, RemovePackageSucceeded, None);
    WithoutFailureCriteria(processOutput, RemovePackageSucceeded);
  }

  /** Both markers must sit on the same line. */
  method AddPackage(processOutput: seq<string>) returns (success: bool)
    ensures success <==> exists i :: 0 <= i < |processOutput| && AddPackageSucceeded(processOutput[i])
    ensures success == Classify(processOutput, AddPackageSucceeded, None)
  {
    success := ExecuteCommand(processOutput, AddPackageSucceeded, None);
    WithoutFailureCriteria(processOutput, AddPackageSucceeded);
  }

  method Clean(processOutput: seq<string>) returns (success: bool)
    ensures success <==> exists i :: 0 <= i < |processOutput| && CleanSucceeded(processOutput[i])
  {
    success := ExecuteCommand(processOutput, CleanSucceeded, None);
    WithoutFailureCriteria(processOutput, CleanSucceeded);
  }

  /** Every marker of the build and test criteria has a space in it, so a line without one matches none. */
  lemma SpaceFreeLine(line: string)
    requires ' ' !in line
    ensures !BuildSucceeded(line) && !TestFailed(line)
  {
    MissingCharacter(line, "0 Error(s)", 1);
    MissingCharacter(line, "build failed", 5);
    MissingCharacter(line, "test failed", 4);
  }

  /** A line holding "build failed" but no parenthesis is a test failure and not a build success. */
  lemma BuildFailedLine(before: string, after: string)
    requires '(' !in before + "build failed" + after
    ensures TestFailed(before + "build failed" + after) && !BuildSucceeded(before + "build failed" + after)
  {
    MissingCharacter(before + "build failed" + after, "0 Error(s)", 7);
    ContainsIgnoreCaseInside(before, "build failed", after);
  }

  /** An instance of `FailureFirst`: with the test-failure markers as failure criterion, a "build failed" line ahead of "0 Error(s)" wins. */
  lemma PredicateRace()
    ensures !Classify(["building...", "build failed", "0 Error(s)"], BuildSucceeded, Some(TestFailed))
  {
    SpaceFreeLine("building...");
    BuildFailedLine("", "");
    assert "" + "build failed" + "" == "build failed";
    assert ["building..."] + ["build failed"] + ["0 Error(s)"] == ["building...", "build failed", "0 Error(s)"];
    FailureFirst(["building..."], "build failed", ["0 Error(s)"], BuildSucceeded, Some(TestFailed));
  }

  // ---------------------------------------------------------------- list package

  /** One entry of the `list package` table: the package id and a version. */
  datatype Package = Package(name: string, version: string)

  /** What the parser carries from line to line. */
  datatype ParseState = ParseState(inTransitiveSection: bool, packages: seq<Package>)

  predicate IsTopLevelHeader(output: string)
  {
    StartsWithIgnoreCase(Trim(output), "Top-level Package")
  }

  predicate IsTransitiveHeader(output: string)
  {
    StartsWithIgnoreCase(Trim(output), "Transitive Package")
  }

  /** Package rows are recognised by the `>` marker anywhere in the raw line. */
  predicate IsPackageRow(output: string)
  {
    '>' in output
  }

  datatype HeaderKind = TopLevel | Transitive | NoHeader

  /** Which header a line is; the top-level test is made first. */
  function KindOf(output: string): HeaderKind
  {
    if IsTopLevelHeader(output) then TopLevel
    else if IsTransitiveHeader(output) then Transitive
    else NoHeader
  }

  /** All the parser looks at in a line: its header kind, the `>` marker, and the space-separated tokens. */
  datatype LineView = LineView(kind: HeaderKind, marked: bool, parts: seq<string>)

  function View(output: string): LineView
  {
    LineView(KindOf(output), IsPackageRow(output), Split(output))
  }

  function Views(lines: seq<string>): (vs: seq<LineView>)
    ensures |vs| == |lines|
    ensures forall k :: 0 <= k < |lines| ==> vs[k] == View(lines[k])
  {
    seq(|lines|, k requires 0 <= k < |lines| => View(lines[k]))
  }

  /**
    The record of an outdated-mode row: the second token is the name, and the
    last two tokens are the resolved and the latest version; only the two row
    widths the tool prints are understood, and an up-to-date package gives none.
   */
  function OutdatedRecord(parts: seq<string>): (r: Option<Package>)
    ensures r.Some? <==> (|parts| == 4 || |parts| == 5) && !EqualsIgnoreCase(parts[|parts| - 2], parts[|parts| - 1])
    ensures r.Some? ==> r.value == Package(parts[1], parts[|parts| - 2])
  {
    if |parts| == 4 then
      if !EqualsIgnoreCase(parts[2], parts[3]) then Some(Package(parts[1], parts[2])) else None
    else if |parts| == 5 then
      if !EqualsIgnoreCase(parts[3], parts[4]) then Some(Package(parts[1], parts[3])) else None
    else
      None
  }

  /** The record of a normal-mode row: the name, and the version when the row has one. */
  function StandardRecord(parts: seq<string>): Option<Package>
  {
    if |parts| >= 2 then Some(Package(parts[1], if |parts| > 2 then parts[2] else "")) else None
  }

  /** Tokens are never empty, so a normal-mode record has an empty version exactly when its row has two tokens. */
  lemma StandardRecordVersion(output: string)
    requires |Split(output)| >= 2
    ensures StandardRecord(Split(output)).value.version == "" <==> |Split(output)| == 2
  {
    var parts := Split(output);
    if |parts| > 2 {
      assert IsToken(parts[2]);
    }
  }

  function Records(record: Option<Package>): (r: seq<Package>)
    ensures |r| <= 1
  {
    if record.Some? then [record.value] else []
  }

  /** The section after a line: headers switch it, every other line keeps it. */
  function NextSection(inTransitiveSection: bool, kind: HeaderKind): bool
  {
    match kind
    case TopLevel => false
    case Transitive => true
    case NoHeader => inTransitiveSection
  }

  /** The records one line adds: none for headers and for lines without the marker. */
  function Emitted(inTransitiveSection: bool, v: LineView, outdated: bool, transitive: bool): (r: seq<Package>)
    ensures |r| <= 1
  {
    if v.kind != NoHeader || !v.marked then []
    else if outdated then Records(OutdatedRecord(v.parts))
    else if transitive == inTransitiveSection then Records(StandardRecord(v.parts))
    else []
  }

  /** One iteration of the parser's loop. */
  function Step(st: ParseState, v: LineView, outdated: bool, transitive: bool): ParseState
  {
    ParseState(NextSection(st.inTransitiveSection, v.kind),
               st.packages + Emitted(st.inTransitiveSection, v, outdated, transitive))
  }

  /** The parser's state after the given lines, starting in the top-level section with no packages. */
  function ParseViews(vs: seq<LineView>, outdated: bool, transitive: bool): ParseState
  {
    if vs == [] then ParseState(false, [])
    else Step(ParseViews(vs[..|vs| - 1], outdated, transitive), vs[|vs| - 1], outdated, transitive)
  }

  function Parse(lines: seq<string>, outdated: bool, transitive: bool): ParseState
  {
    ParseViews(Views(lines), outdated, transitive)
  }

  /** Neither kind of header adds a record; a top-level header selects the top-level section, a transitive one the transitive section. */
  lemma HeaderLine(st: ParseState, output: string, outdated: bool, transitive: bool)
    requires IsTopLevelHeader(output) || IsTransitiveHeader(output)
    ensures Step(st, View(output), outdated, transitive).packages == st.packages
    ensures Step(st, View(output), outdated, transitive).inTransitiveSection <==> !IsTopLevelHeader(output)
  {
  }

  /** A line without the `>` marker adds no record, in either mode. */
  lemma UnmarkedLine(st: ParseState, output: string, outdated: bool, transitive: bool)
    requires !IsPackageRow(output)
    ensures Step(st, View(output), outdated, transitive).packages == st.packages
  {
  }

  /** In outdated mode a row is judged on its own tokens; the section plays no part. */
  lemma OutdatedRow(st: ParseState, output: string, transitive: bool)
    requires !IsTopLevelHeader(output) && !IsTransitiveHeader(output) && IsPackageRow(output)
    ensures Step(st, View(output), true, transitive)
            == ParseState(st.inTransitiveSection, st.packages + Records(OutdatedRecord(Split(output))))
  {
  }

  /** In normal mode a row is kept exactly when its section is the requested one. */
  lemma StandardRow(st: ParseState, output: string, transitive: bool)
    requires !IsTopLevelHeader(output) && !IsTransitiveHeader(output) && IsPackageRow(output)
    ensures Step(st, View(output), false, transitive)
            == ParseState(st.inTransitiveSection, st.packages + (if transitive == st.inTransitiveSection
                                                                then Records(StandardRecord(Split(output))) else []))
  {
  }

  /** The outdated-mode row decoding of `ListPackages`, on the row's tokens. */
  method ReadOutdatedRow(parts: seq<string>) returns (record: Option<Package>)
    ensures record == OutdatedRecord(parts)
  {
    var packageName: Option<string> := None;
    var resolvedVersion: Option<string> := None;
    var latestVersion: Option<string> := None;
    if |parts| == 4 {
      packageName, resolvedVersion, latestVersion := Some(parts[1]), Some(parts[2]), Some(parts[3]);
    } else if |parts| == 5 {
      packageName, resolvedVersion, latestVersion := Some(parts[1]), Some(parts[3]), Some(parts[4]);
    }
    record := None;
    if resolvedVersion.Some? && latestVersion.Some? {
      if !EqualsIgnoreCase(resolvedVersion.value, latestVersion.value) {
        record := Some(Package(packageName.value, resolvedVersion.value));
      }
    }
  }

  /** The normal-mode row decoding of `ListPackages`, on the row's tokens. */
  method ReadStandardRow(parts: seq<string>) returns (record: Option<Package>)
    ensures record == StandardRecord(parts)
  {
    record := None;
    if |parts| >= 2 {
      var packageName := parts[1];
      var version := if |parts| > 2 then parts[2] else "";
      record := Some(Package(packageName, version));
    }
  }

  /**
    The body of the `ListPackages` loop: one captured line against the current
    section and records. A header returns at once, as the loop's `continue` does.
   */
  method ReadLine(inTransitiveSection: bool, packages: seq<Package>, output: string, outdated: bool, transitive: bool)
    returns (nextSection: bool, nextPackages: seq<Package>)
    ensures ParseState(nextSection, nextPackages) == Step(ParseState(inTransitiveSection, packages), View(output), outdated, transitive)
  {
    ghost var before := ParseState(inTransitiveSection, packages);
    nextSection, nextPackages := inTransitiveSection, packages;
    var line := Trim(output);
    if StartsWithIgnoreCase(line, "Top-level Package") {
      HeaderLine(before, output, outdated, transitive);
      nextSection := false;
      return;
    }
    if StartsWithIgnoreCase(line, "Transitive Package") {
      HeaderLine(before, output, outdated, transitive);
      nextSection := true;
      return;
    }
    nextPackages := ReadRow(inTransitiveSection, packages, output, outdated, transitive);
  }

  /** The rest of the loop body, for a line that is not a header: a marked row may add one record. */
  method ReadRow(inTransitiveSection: bool, packages: seq<Package>, output: string, outdated: bool, transitive: bool)
    returns (nextPackages: seq<Package>)
    requires !IsTopLevelHeader(output) && !IsTransitiveHeader(output)
    ensures ParseState(inTransitiveSection, nextPackages) == Step(ParseState(inTransitiveSection, packages), View(output), outdated, transitive)
  {
    ghost var before := ParseState(inTransitiveSection, packages);
    nextPackages := packages;
    if outdated && '>' in output {
      OutdatedRow(before, output, transitive);
      var record := ReadOutdatedRow(Split(output));
      if record.Some? {
        nextPackages := nextPackages + [record.value];
      }
    } else if !outdated && '>' in output {
      StandardRow(before, output, transitive);
      var record := ReadStandardRow(Split(output));
      if record.Some? && ((transitive && inTransitiveSection) || (!transitive && !inTransitiveSection)) {
        nextPackages := nextPackages + [record.value];
      }
    } else {
      UnmarkedLine(before, output, outdated, transitive);
    }
  }

  lemma ParsePrefix(vs: seq<LineView>, n: nat, outdated: bool, transitive: bool)
    requires n < |vs|
    ensures ParseViews(vs[..n + 1], outdated, transitive) == Step(ParseViews(vs[..n], outdated, transitive), vs[n], outdated, transitive)
  {
    assert vs[..n + 1][..n] == vs[..n];
  }

  /**
    `ListPackages`: walks the captured lines once, switching section on the two
    header kinds and collecting one record per recognised package row.
   */
  method ListPackages(processOutput: seq<string>, outdated: bool, transitive: bool) returns (packages: seq<Package>)
    ensures packages == Parse(processOutput, outdated, transitive).packages
    ensures |packages| <= |processOutput|
  {
    packages := [];
    var inTransitiveSection := false;
    for n := 0 to |processOutput|
      invariant ParseState(inTransitiveSection, packages) == ParseViews(Views(processOutput)[..n], outdated, transitive)
    {
      ghost var before := ParseState(inTransitiveSection, packages);
      inTransitiveSection, packages := ReadLine(inTransitiveSection, packages, processOutput[n], outdated, transitive);
      ParseNext(processOutput, n, before, ParseState(inTransitiveSection, packages), outdated, transitive);
    }
    ParseAll(processOutput, ParseState(inTransitiveSection, packages), outdated, transitive);
  }

  lemma ParseNext(lines: seq<string>, n: nat, before: ParseState, after: ParseState, outdated: bool, transitive: bool)
    requires n < |lines|
    requires before == ParseViews(Views(lines)[..n], outdated, transitive)
    requires after == Step(before, View(lines[n]), outdated, transitive)
    ensures after == ParseViews(Views(lines)[..n + 1], outdated, transitive)
  {
    ParsePrefix(Views(lines), n, outdated, transitive);
  }

  lemma ParseAll(lines: seq<string>, st: ParseState, outdated: bool, transitive: bool)
    requires st == ParseViews(Views(lines)[..|lines|], outdated, transitive)
    ensures st == Parse(lines, outdated, transitive) && |st.packages| <= |lines|
  {
    assert Views(lines)[..|lines|] == Views(lines);
    RecordBound(Views(lines), outdated, transitive);
  }

  /** At most one record per line. */
  lemma {:induction false} RecordBound(vs: seq<LineView>, outdated: bool, transitive: bool)
    ensures |ParseViews(vs, outdated, transitive).packages| <= |vs|
  {
    if vs != [] {
      RecordBound(vs[..|vs| - 1], outdated, transitive);
    }
  }

  /** The records of outdated mode, defined line by line with no section state at all. */
  function OutdatedRows(vs: seq<LineView>): seq<Package>
  {
    if vs == [] then []
    else
      var v := vs[|vs| - 1];
      OutdatedRows(vs[..|vs| - 1]) + (if v.kind == NoHeader && v.marked then Records(OutdatedRecord(v.parts)) else [])
  }

  /** Outdated mode ignores the sections, and so the `transitive` argument, altogether. */
  lemma {:induction false} OutdatedModeIgnoresSections(vs: seq<LineView>, transitive: bool)
    ensures ParseViews(vs, true, transitive).packages == OutdatedRows(vs)
  {
    if vs != [] {
      OutdatedModeIgnoresSections(vs[..|vs| - 1], transitive);
    }
  }

  lemma OutdatedModeIgnoresTransitive(lines: seq<string>)
    ensures Parse(lines, true, true).packages == Parse(lines, true, false).packages
  {
    OutdatedModeIgnoresSections(Views(lines), true);
    OutdatedModeIgnoresSections(Views(lines), false);
  }

  /** Some line is a transitive header and no header follows it. */
  ghost predicate AfterTransitiveHeader(vs: seq<LineView>)
  {
    exists k :: 0 <= k < |vs| && vs[k].kind == Transitive && forall j :: k < j < |vs| ==> vs[j].kind == NoHeader
  }

  /** A final header decides by its own kind; any other final line leaves the answer to the lines before it. */
  lemma AfterTransitiveHeaderSnoc(vs: seq<LineView>, v: LineView)
    ensures AfterTransitiveHeader(vs + [v]) <==>
              (if v.kind == NoHeader then AfterTransitiveHeader(vs) else v.kind == Transitive)
  {
    var all := vs + [v];
    if v.kind == Transitive {
      assert all[|vs|].kind == Transitive;
    } else if v.kind == NoHeader {
      if AfterTransitiveHeader(vs) {
        var k :| 0 <= k < |vs| && vs[k].kind == Transitive && forall j :: k < j < |vs| ==> vs[j].kind == NoHeader;
        assert all[k].kind == Transitive;
        forall j | k < j < |all|
          ensures all[j].kind == NoHeader
        {
          if j < |vs| {
            assert all[j] == vs[j];
          }
        }
      }
      if AfterTransitiveHeader(all) {
        var k :| 0 <= k < |all| && all[k].kind == Transitive && forall j :: k < j < |all| ==> all[j].kind == NoHeader;
        assert all[|vs|] == v;
        assert vs[k] == all[k];
        forall j | k < j < |vs|
          ensures vs[j].kind == NoHeader
        {
          assert vs[j] == all[j];
        }
      }
    } else {
      forall k | 0 <= k < |all| && all[k].kind == Transitive
        ensures k < |all| - 1 && all[|all| - 1].kind != NoHeader
      {
        assert all[|vs|] == v;
      }
    }
  }

  /** The section flag is set exactly when the last header seen was the transitive one. */
  lemma {:induction false} SectionFlag(vs: seq<LineView>, outdated: bool, transitive: bool)
    ensures ParseViews(vs, outdated, transitive).inTransitiveSection <==> AfterTransitiveHeader(vs)
  {
    if vs != [] {
      var prefix := vs[..|vs| - 1];
      SectionFlag(prefix, outdated, transitive);
      assert vs == prefix + [vs[|vs| - 1]];
      AfterTransitiveHeaderSnoc(prefix, vs[|vs| - 1]);
    }
  }

  /** The records of normal mode, each row judged by the header above it rather than by a running flag. */
  ghost function StandardRows(vs: seq<LineView>, transitive: bool): seq<Package>
  {
    if vs == [] then []
    else
      var prefix, v := vs[..|vs| - 1], vs[|vs| - 1];
      StandardRows(prefix, transitive)
      + (if v.kind == NoHeader && v.marked && (AfterTransitiveHeader(prefix) <==> transitive)
         then Records(StandardRecord(v.parts)) else [])
  }

  /** Normal mode keeps exactly the rows under a header of the requested kind. */
  lemma {:induction false} StandardModeFiltersSections(vs: seq<LineView>, transitive: bool)
    ensures ParseViews(vs, false, transitive).packages == StandardRows(vs, transitive)
  {
    if vs != [] {
      var prefix := vs[..|vs| - 1];
      StandardModeFiltersSections(prefix, transitive);
      SectionFlag(prefix, false, transitive);
    }
  }

  /** Later lines only ever append: the records of a prefix come first, in order. */
  lemma {:induction false} RecordsOfPrefix(vs: seq<LineView>, more: seq<LineView>, outdated: bool, transitive: bool)
    ensures ParseViews(vs, outdated, transitive).packages <= ParseViews(vs + more, outdated, transitive).packages
  {
    if more == [] {
      assert vs + more == vs;
    } else {
      var shorter := more[..|more| - 1];
      RecordsOfPrefix(vs, shorter, outdated, transitive);
      assert (vs + more)[..|vs + more| - 1] == vs + shorter;
    }
  }

  /** The second token of every package row, which is where `ListPackages` takes names from. */
  function RowNames(vs: seq<LineView>): set<string>
  {
    if vs == [] then {}
    else
      var v := vs[|vs| - 1];
      RowNames(vs[..|vs| - 1]) + (if v.kind == NoHeader && v.marked && |v.parts| >= 2 then {v.parts[1]} else {})
  }

  /** Every record names the package of some package row of the output. */
  lemma {:induction false} RecordsComeFromRows(vs: seq<LineView>, outdated: bool, transitive: bool)
    ensures forall p :: p in ParseViews(vs, outdated, transitive).packages ==> p.name in RowNames(vs)
  {
    if vs != [] {
      RecordsComeFromRows(vs[..|vs| - 1], outdated, transitive);
    }
  }

  // ---------------------------------------------------------------- list package examples

  predicate NoWhiteSpace(t: string)
  {
    forall i :: 0 <= i < |t| ==> !IsWhiteSpace(t[i])
  }

  /** A line whose first visible character is the marker is no header. */
  lemma MarkerIsNoHeader(output: string)
    requires Trim(output) != [] && Trim(output)[0] == '>'
    ensures KindOf(output) == NoHeader
  {
    DiffersAt(Trim(output), "Top-level Package", 0);
    DiffersAt(Trim(output), "Transitive Package", 0);
  }

  /** A row without its leading gap: the marker and the rest of the row, ending on a visible character. */
  lemma TrimRow(tokens: seq<string>, gaps: seq<string>)
    requires |gaps| == |tokens| && Gaps(gaps)
    requires |tokens| >= 1 && tokens[0] == ">"
    requires ListingTokens(tokens)
    ensures Trim(Spaced(tokens, gaps)) == ">" + Spaced(tokens[1..], gaps[1..])
  {
    var line, t := Spaced(tokens, gaps), ">" + Spaced(tokens[1..], gaps[1..]);
    assert line == gaps[0] + t;
    SpacedLastCharacter(tokens, gaps);
    assert NoWhiteSpace(tokens[|tokens| - 1]);
    assert t[|t| - 1] == line[|line| - 1];
    assert forall k :: 0 <= k < |gaps[0]| ==> IsWhiteSpace(gaps[0][k]);
    assert line == gaps[0] + t + "";
    TrimPadded(gaps[0], t, "");
  }

  /** A row written as its tokens, each after a gap of spaces, the first token being the marker. */
  lemma MarkedRowView(tokens: seq<string>, gaps: seq<string>)
    requires |gaps| == |tokens| && Gaps(gaps)
    requires |tokens| >= 2 && tokens[0] == ">"
    requires ListingTokens(tokens)
    ensures View(Spaced(tokens, gaps)) == LineView(NoHeader, true, tokens)
  {
    var line := Spaced(tokens, gaps);
    TrimRow(tokens, gaps);
    MarkerIsNoHeader(line);
    assert line[|gaps[0]|] == '>';
    SplitSpaced(tokens, gaps);
  }

  lemma TopLevelHeaderView(pad: string, rest: string)
    requires Spaces(pad)
    requires rest == [] || !IsWhiteSpace(rest[|rest| - 1])
    ensures KindOf(pad + "Top-level Package" + rest) == TopLevel
  {
    var t := "Top-level Package" + rest;
    assert pad + "Top-level Package" + rest == pad + t;
    assert forall k :: 0 <= k < |pad| ==> IsWhiteSpace(pad[k]);
    assert pad + t == pad + t + "";
    TrimPadded(pad, t, "");
    assert t[..17] == "Top-level Package";
  }

  lemma TrimTransitiveHeader(pad: string, rest: string)
    requires Spaces(pad)
    requires rest == [] || !IsWhiteSpace(rest[|rest| - 1])
    ensures Trim(pad + "Transitive Package" + rest) == "Transitive Package" + rest
  {
    var t := "Transitive Package" + rest;
    assert pad + "Transitive Package" + rest == pad + t;
    assert forall k :: 0 <= k < |pad| ==> IsWhiteSpace(pad[k]);
    assert pad + t == pad + t + "";
    TrimPadded(pad, t, "");
  }

  lemma NotTopLevel(rest: string)
    ensures !StartsWithIgnoreCase("Transitive Package" + rest, "Top-level Package")
  {
    DiffersAt("Transitive Package" + rest, "Top-level Package", 1);
  }

  lemma TransitiveHeaderView(pad: string, rest: string)
    requires Spaces(pad)
    requires rest == [] || !IsWhiteSpace(rest[|rest| - 1])
    ensures KindOf(pad + "Transitive Package" + rest) == Transitive
  {
    TrimTransitiveHeader(pad, rest);
    assert ("Transitive Package" + rest)[..18] == "Transitive Package";
    NotTopLevel(rest);
  }

  /** Four lines are parsed by four steps from the initial state. */
  lemma {:induction false} FourSteps(vs: seq<LineView>, outdated: bool, transitive: bool)
    requires |vs| == 4
    ensures ParseViews(vs, outdated, transitive)
            == Step(Step(Step(Step(ParseState(false, []), vs[0], outdated, transitive), vs[1], outdated, transitive),
                         vs[2], outdated, transitive), vs[3], outdated, transitive)
  {
    assert vs[..0] == [];
    ParsePrefix(vs, 0, outdated, transitive);
    ParsePrefix(vs, 1, outdated, transitive);
    ParsePrefix(vs, 2, outdated, transitive);
    ParsePrefix(vs, 3, outdated, transitive);
    assert vs[..4] == vs;
  }

  /** The parser's state along a listing of two headed sections with one row each. */
  lemma TwoSectionSteps(vs: seq<LineView>, outdated: bool, transitive: bool)
    requires |vs| == 4 && vs[0].kind == TopLevel && vs[2].kind == Transitive
    requires vs[1].kind == NoHeader && vs[3].kind == NoHeader
    ensures ParseViews(vs, outdated, transitive).packages
            == Emitted(false, vs[1], outdated, transitive) + Emitted(true, vs[3], outdated, transitive)
  {
    FourSteps(vs, outdated, transitive);
    var first := Emitted(false, vs[1], outdated, transitive);
    assert [] + first == first;
  }

  /** A listing with a top-level section holding one row, then a transitive section holding one row. */
  lemma TwoSectionViews(vs: seq<LineView>, top: seq<string>, below: seq<string>, outdated: bool, transitive: bool)
    requires |vs| == 4 && vs[0].kind == TopLevel && vs[2].kind == Transitive
    requires vs[1] == LineView(NoHeader, true, top) && vs[3] == LineView(NoHeader, true, below)
    ensures ParseViews(vs, outdated, transitive).packages
            == if outdated then Records(OutdatedRecord(top)) + Records(OutdatedRecord(below))
               else if transitive then Records(StandardRecord(below))
               else Records(StandardRecord(top))
  {
    TwoSectionSteps(vs, outdated, transitive);
    var first, second := Emitted(false, vs[1], outdated, transitive), Emitted(true, vs[3], outdated, transitive);
    if !outdated {
      if transitive {
        assert first == [];
      } else {
        assert second == [];
        assert first + [] == first;
      }
    }
  }

  /** Tokens written in a listing: non-empty, with no white space in them. */
  predicate ListingTokens(tokens: seq<string>)
  {
    forall k :: 0 <= k < |tokens| ==> IsToken(tokens[k]) && NoWhiteSpace(tokens[k])
  }

  /**
    The lines of a listing as the tool prints it: two section headers, each
    followed by one package row whose columns sit after gaps of any width.
   */
  function Listing(pad: string, topColumns: string, top: seq<string>, topGaps: seq<string>,
                   belowColumns: string, below: seq<string>, belowGaps: seq<string>): seq<string>
    requires |topGaps| == |top| + 1 && |belowGaps| == |below| + 1
  {
    [pad + "Top-level Package" + topColumns, Spaced([">"] + top, topGaps),
     pad + "Transitive Package" + belowColumns, Spaced([">"] + below, belowGaps)]
  }

  /** What the parser sees in a listing: the two headers, and each row as a marked line with the row's tokens. */
  lemma ListingViews(pad: string, topColumns: string, top: seq<string>, topGaps: seq<string>,
                     belowColumns: string, below: seq<string>, belowGaps: seq<string>)
    requires Spaces(pad) && ListingTokens(top) && ListingTokens(below) && |top| >= 1 && |below| >= 1
    requires |topGaps| == |top| + 1 && |belowGaps| == |below| + 1 && Gaps(topGaps) && Gaps(belowGaps)
    requires topColumns == [] || !IsWhiteSpace(topColumns[|topColumns| - 1])
    requires belowColumns == [] || !IsWhiteSpace(belowColumns[|belowColumns| - 1])
    ensures var vs := Views(Listing(pad, topColumns, top, topGaps, belowColumns, below, belowGaps));
            |vs| == 4 && vs[0].kind == TopLevel && vs[2].kind == Transitive
            && vs[1] == LineView(NoHeader, true, [">"] + top) && vs[3] == LineView(NoHeader, true, [">"] + below)
  {
    var lines := Listing(pad, topColumns, top, topGaps, belowColumns, below, belowGaps);
    ListingTopLevel(lines, pad, topColumns);
    ListingTransitive(lines, pad, belowColumns);
    ListingRow(lines, 1, top, topGaps);
    ListingRow(lines, 3, below, belowGaps);
  }

  lemma ListingTopLevel(lines: seq<string>, pad: string, columns: string)
    requires Spaces(pad) && (columns == [] || !IsWhiteSpace(columns[|columns| - 1]))
    requires |lines| > 0 && lines[0] == pad + "Top-level Package" + columns
    ensures Views(lines)[0].kind == TopLevel
  {
    TopLevelHeaderView(pad, columns);
  }

  lemma ListingTransitive(lines: seq<string>, pad: string, columns: string)
    requires Spaces(pad) && (columns == [] || !IsWhiteSpace(columns[|columns| - 1]))
    requires |lines| > 2 && lines[2] == pad + "Transitive Package" + columns
    ensures Views(lines)[2].kind == Transitive
  {
    TransitiveHeaderView(pad, columns);
  }

  lemma ListingRow(lines: seq<string>, k: nat, tokens: seq<string>, gaps: seq<string>)
    requires ListingTokens(tokens) && |tokens| >= 1 && |gaps| == |tokens| + 1 && Gaps(gaps)
    requires k < |lines| && lines[k] == Spaced([">"] + tokens, gaps)
    ensures Views(lines)[k] == LineView(NoHeader, true, [">"] + tokens)
  {
    RowView(tokens, gaps);
  }

  /** A marked row is viewed as a package row holding the marker and its columns, whatever the gaps between them. */
  lemma RowView(tokens: seq<string>, gaps: seq<string>)
    requires ListingTokens(tokens) && |tokens| >= 1 && |gaps| == |tokens| + 1 && Gaps(gaps)
    ensures View(Spaced([">"] + tokens, gaps)) == LineView(NoHeader, true, [">"] + tokens)
  {
    var row := [">"] + tokens;
    assert forall k :: 1 <= k < |row| ==> row[k] == tokens[k - 1];
    MarkedRowView(row, gaps);
  }

  /**
    An outdated listing: a five-token top-level row (the marker, name,
    requested, resolved and latest versions) and a four-token transitive row
    (the marker, name, resolved and latest versions), their columns padded with
    gaps of any width, are each reported, with their resolved version, exactly
    when the resolved and latest versions differ; the section and the
    transitive filter play no part.
   */
  lemma OutdatedListing(pad: string, topColumns: string, name: string, requested: string, resolved: string, latest: string,
                        topGaps: seq<string>, belowColumns: string, dependency: string, dependencyResolved: string,
                        dependencyLatest: string, belowGaps: seq<string>, transitive: bool)
    requires Spaces(pad) && ListingTokens([name, requested, resolved, latest])
    requires ListingTokens([dependency, dependencyResolved, dependencyLatest])
    requires |topGaps| == 5 && |belowGaps| == 4 && Gaps(topGaps) && Gaps(belowGaps)
    requires topColumns == [] || !IsWhiteSpace(topColumns[|topColumns| - 1])
    requires belowColumns == [] || !IsWhiteSpace(belowColumns[|belowColumns| - 1])
    ensures Parse(Listing(pad, topColumns, [name, requested, resolved, latest], topGaps,
                          belowColumns, [dependency, dependencyResolved, dependencyLatest], belowGaps), true, transitive).packages
            == (if EqualsIgnoreCase(resolved, latest) then [] else [Package(name, resolved)])
               + (if EqualsIgnoreCase(dependencyResolved, dependencyLatest) then [] else [Package(dependency, dependencyResolved)])
  {
    var top, below := [name, requested, resolved, latest], [dependency, dependencyResolved, dependencyLatest];
    ListingViews(pad, topColumns, top, topGaps, belowColumns, below, belowGaps);
    TwoSectionViews(Views(Listing(pad, topColumns, top, topGaps, belowColumns, below, belowGaps)), [">"] + top, [">"] + below, true, transitive);
  }

  /**
    A normal listing, columns padded with gaps of any width: the top-level row
    is reported when top-level packages are asked for and the transitive row
    when transitive ones are, each with its third token as the version.
   */
  lemma StandardListing(pad: string, topColumns: string, name: string, version: string, more: string, topGaps: seq<string>,
                        belowColumns: string, dependency: string, dependencyVersion: string, belowGaps: seq<string>, transitive: bool)
    requires Spaces(pad) && ListingTokens([name, version, more]) && ListingTokens([dependency, dependencyVersion])
    requires |topGaps| == 4 && |belowGaps| == 3 && Gaps(topGaps) && Gaps(belowGaps)
    requires topColumns == [] || !IsWhiteSpace(topColumns[|topColumns| - 1])
    requires belowColumns == [] || !IsWhiteSpace(belowColumns[|belowColumns| - 1])
    ensures Parse(Listing(pad, topColumns, [name, version, more], topGaps, belowColumns, [dependency, dependencyVersion], belowGaps),
                  false, transitive).packages
            == if transitive then [Package(dependency, dependencyVersion)] else [Package(name, version)]
  {
    var top, below := [name, version, more], [dependency, dependencyVersion];
    ListingViews(pad, topColumns, top, topGaps, belowColumns, below, belowGaps);
    var vs := Views(Listing(pad, topColumns, top, topGaps, belowColumns, below, belowGaps));
    TwoSectionViews(vs, [">"] + top, [">"] + below, false, transitive);
    MarkedRecord(top);
    MarkedRecord(below);
  }

  /** A marked row with at least a name and a version column records exactly those two. */
  lemma MarkedRecord(tokens: seq<string>)
    requires |tokens| >= 2
    ensures StandardRecord([">"] + tokens) == Some(Package(tokens[0], tokens[1]))
  {
    var row := [">"] + tokens;
    assert row[1] == tokens[0] && row[2] == tokens[1];
  }

  // ---------------------------------------------------------------- updating packages

  /** One `add package` invocation: the project file and the package re-added at its latest version. */
  datatype Attempt = Attempt(projectFile: string, packageId: string)

  /** The outdated packages of a project, as the outdated-mode listing of its captured output reports them. */
  function OutdatedPackages(projectFile: string, listOutput: string -> seq<string>): seq<Package>
  {
    Parse(listOutput(projectFile), true, false).packages
  }

  function ProjectAttempts(projectFile: string, packages: seq<Package>): seq<Attempt>
  {
    seq(|packages|, j requires 0 <= j < |packages| => Attempt(projectFile, packages[j].name))
  }

  /** The outdated packages of each project, as `UpdatePackages` sees them. */
  function OutdatedOf(listOutput: string -> seq<string>): string -> seq<Package>
  {
    projectFile => OutdatedPackages(projectFile, listOutput)
  }

  /** Every invocation the update loop makes, project by project and, within a project, in listing order. */
  function Attempts(projectFiles: seq<string>, outdated: string -> seq<Package>): seq<Attempt>
  {
    if projectFiles == [] then []
    else
      var last := projectFiles[|projectFiles| - 1];
      Attempts(projectFiles[..|projectFiles| - 1], outdated) + ProjectAttempts(last, outdated(last))
  }

  lemma AttemptsPrefix(projectFiles: seq<string>, i: nat, outdated: string -> seq<Package>)
    requires i < |projectFiles|
    ensures Attempts(projectFiles[..i + 1], outdated)
            == Attempts(projectFiles[..i], outdated) + ProjectAttempts(projectFiles[i], outdated(projectFiles[i]))
  {
    assert projectFiles[..i + 1][..i] == projectFiles[..i];
  }

  /** Whether an invocation succeeded, judged by the `add package` criterion on the output it produced. */
  predicate Updated(attempt: Attempt, addOutput: (string, string) -> seq<string>)
  {
    Classify(addOutput(attempt.projectFile, attempt.packageId), AddPackageSucceeded, None)
  }

  predicate AllUpdated(attempts: seq<Attempt>, addOutput: (string, string) -> seq<string>)
  {
    forall k :: 0 <= k < |attempts| ==> Updated(attempts[k], addOutput)
  }

  lemma ProjectAttemptsPrefix(projectFile: string, packages: seq<Package>, j: nat)
    requires j < |packages|
    ensures ProjectAttempts(projectFile, packages[..j + 1]) == ProjectAttempts(projectFile, packages[..j]) + [Attempt(projectFile, packages[j].name)]
  {
  }

  lemma AllUpdatedSnoc(attempts: seq<Attempt>, attempt: Attempt, addOutput: (string, string) -> seq<string>)
    ensures AllUpdated(attempts + [attempt], addOutput) <==> AllUpdated(attempts, addOutput) && Updated(attempt, addOutput)
  {
    var all := attempts + [attempt];
    assert all[|attempts|] == attempt;
    assert forall k :: 0 <= k < |attempts| ==> all[k] == attempts[k];
  }

  lemma AllUpdatedAppend(attempts: seq<Attempt>, more: seq<Attempt>, addOutput: (string, string) -> seq<string>)
    ensures AllUpdated(attempts + more, addOutput) <==> AllUpdated(attempts, addOutput) && AllUpdated(more, addOutput)
  {
    var all := attempts + more;
    assert forall k :: 0 <= k < |attempts| ==> all[k] == attempts[k];
    assert forall k :: 0 <= k < |more| ==> all[|attempts| + k] == more[k];
  }

  /** The inner loop of `UpdatePackages`: re-adds each outdated package of one project, going on after a failure. */
  method UpdateProject(projectFile: string, outdatedPackages: seq<Package>, addOutput: (string, string) -> seq<string>)
    returns (updated: bool, attempts: seq<Attempt>)
    ensures attempts == ProjectAttempts(projectFile, outdatedPackages)
    ensures updated <==> AllUpdated(attempts, addOutput)
  {
    updated, attempts := true, [];
    for j := 0 to |outdatedPackages|
      invariant attempts == ProjectAttempts(projectFile, outdatedPackages[..j])
      invariant updated <==> AllUpdated(attempts, addOutput)
    {
      var attempt := Attempt(projectFile, outdatedPackages[j].name);
      var updateSuccess := AddPackage(addOutput(projectFile, outdatedPackages[j].name));
      assert updateSuccess == Updated(attempt, addOutput);
      ProjectAttemptsPrefix(projectFile, outdatedPackages, j);
      AllUpdatedSnoc(attempts, attempt, addOutput);
      attempts := attempts + [attempt];
      if !updateSuccess {
        updated := false;
      }
    }
    assert outdatedPackages[..|outdatedPackages|] == outdatedPackages;
  }

  /**
    `UpdatePackages`: lists the outdated packages of every project and re-adds
    each; a failed update is recorded and the loop goes on. The project files
    and the output each tool invocation produces are inputs; `attempts` is the
    sequence of `add package` invocations made.
   */
  method UpdatePackages(projectFiles: seq<string>, listOutput: string -> seq<string>, addOutput: (string, string) -> seq<string>)
    returns (allPackagesUpdated: bool, attempts: seq<Attempt>)
    ensures attempts == Attempts(projectFiles, OutdatedOf(listOutput))
    ensures allPackagesUpdated <==> projectFiles != [] && AllUpdated(attempts, addOutput)
  {
    attempts := [];
    if |projectFiles| == 0 {
      return false, attempts;
    }
    allPackagesUpdated := true;
    for i := 0 to |projectFiles|
      invariant attempts == Attempts(projectFiles[..i], OutdatedOf(listOutput))
      invariant allPackagesUpdated <==> AllUpdated(attempts, addOutput)
    {
      var projectFile := projectFiles[i];
      AttemptsPrefix(projectFiles, i, OutdatedOf(listOutput));
      var outdatedPackages := ListPackages(listOutput(projectFile), true, false);
      if |outdatedPackages| == 0 {
        continue;
      }
      var updated, projectAttempts := UpdateProject(projectFile, outdatedPackages, addOutput);
      AllUpdatedAppend(attempts, projectAttempts, addOutput);
      attempts := attempts + projectAttempts;
      if !updated {
        allPackagesUpdated := false;
      }
    }
    assert projectFiles[..|projectFiles|] == projectFiles;
  }

  /** Updating two lists of projects one after the other makes the invocations of each, in order. */
  lemma {:induction false} AttemptsOfAppend(first: seq<string>, second: seq<string>, outdated: string -> seq<Package>)
    ensures Attempts(first + second, outdated) == Attempts(first, outdated) + Attempts(second, outdated)
    decreases |second|
  {
    if second == [] {
      assert first + second == first;
    } else {
      var all, init, last := first + second, second[..|second| - 1], second[|second| - 1];
      var tail := ProjectAttempts(last, outdated(last));
      assert all[..|all| - 1] == first + init;
      assert all[|all| - 1] == last;
      assert Attempts(all, outdated) == Attempts(first + init, outdated) + tail;
      assert Attempts(second, outdated) == Attempts(init, outdated) + tail;
      AttemptsOfAppend(first, init, outdated);
      assert (Attempts(first, outdated) + Attempts(init, outdated)) + tail
             == Attempts(first, outdated) + (Attempts(init, outdated) + tail);
    }
  }

  function Names(packages: seq<Package>): set<string>
  {
    set k | 0 <= k < |packages| :: packages[k].name
  }

  /** An invocation is made exactly for each project and each name its outdated-mode listing reports. */
  lemma {:induction false} AttemptsCover(projectFiles: seq<string>, outdated: string -> seq<Package>, projectFile: string, packageId: string)
    ensures Attempt(projectFile, packageId) in Attempts(projectFiles, outdated)
            <==> projectFile in projectFiles && packageId in Names(outdated(projectFile))
    decreases |projectFiles|
  {
    if projectFiles != [] {
      var init, last := projectFiles[..|projectFiles| - 1], projectFiles[|projectFiles| - 1];
      AttemptsCover(init, outdated, projectFile, packageId);
      assert projectFiles == init + [last];
      var mine := ProjectAttempts(last, outdated(last));
      assert Attempt(projectFile, packageId) in mine
             <==> projectFile == last && packageId in Names(outdated(last)) by {
        assert forall j :: 0 <= j < |mine| ==> mine[j] == Attempt(last, outdated(last)[j].name);
      }
    }
  }

  /** With nothing outdated no invocation is made, so the update succeeds when there is at least one project. */
  lemma {:induction false} NothingOutdated(projectFiles: seq<string>, outdated: string -> seq<Package>)
    requires forall k :: 0 <= k < |projectFiles| ==> outdated(projectFiles[k]) == []
    ensures Attempts(projectFiles, outdated) == []
    decreases |projectFiles|
  {
    if projectFiles != [] {
      NothingOutdated(projectFiles[..|projectFiles| - 1], outdated);
    }
  }
}
