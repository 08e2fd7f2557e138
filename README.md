# Soenneker.Utils.Dotnet — a Dafny model of the dotnet CLI wrapper

`DotnetUtil` drives the `dotnet` command-line tool. For each subcommand it builds an
argument string (`ArgumentUtil`), starts the process, and interprets the captured output
lines. This project models the logic around the process:

- **Argument builders.** These are the nine builders of `ArgumentUtil`: `Run`, `Restore`,
  `Build`, `Test`, `Pack`, `AddPackage`, `RemovePackage`, `Clean` and `ListPackages`. Each is
  a pure function from the nullable parameters (`Option`) to a string. Module
  `CommandLine` gives every builder a partner. `Render` writes a sequence of flags the way
  the builders append them. `ParseArguments` is the model's reader of an argument string:
  it splits the string at spaces, keeps a token that opens with `"` whole up to the next
  `"` (spaces included), and decodes the quoted path and the flags. For every builder, the
  model proves three things:
  - the string it returns is the quoted path followed by the rendering of an explicit flag
    sequence (`*Flags`), in which each flag appears exactly when its parameter calls for it;
  - it starts with the source's fixed prefix;
  - the model's reader recovers that exact flag sequence from it.
- **The output scan.** `ExecuteCommand` is a method with a loop. It returns early at the
  first line accepted by the success criterion (`true`) or by the failure criterion
  (`false`), and returns `false` when no line is recognised. Its specification function is
  `Classify`. The per-command criteria are predicates over one line, with the ASCII
  case-insensitive `Contains` of module `Text`.
- **The `list package` parser.** `ListPackages` is a method whose loop carries the section
  flag `inTransitiveSection` and the record list. It is proved equal to `Parse`, a fold of
  `Step` over the lines. Lemmas about `Parse` state the properties of the parser:
  - headers switch the section and never add a record;
  - unmarked lines add nothing;
  - outdated mode ignores sections, and normal mode keeps only the requested section;
  - records keep line order, there are at most as many records as lines, and every record
    names a row;
  - worked listings in both modes.
- **The update loop.** `UpdatePackages` is a nested loop over the projects and their
  outdated packages, split into `UpdatePackages` and `UpdateProject`. It is proved to
  return the exact sequence of `AddPackage` attempts (`Attempts`), and to report success
  exactly when there is at least one project and every attempt succeeded.

Modules:
- `Wrappers`: `Option`.
- `Text`:
  - ASCII case folding, `Contains`/`StartsWith`/`Equals` ignoring case;
  - `Trim` over the white-space set of `Char.IsWhiteSpace`;
  - `Split` on `' '` with empty entries removed, which inverts `Spaced` (tokens after gaps
    of one or more spaces, as the tool pads its table columns);
  - `Join`, tokens after single spaces, as the builders append fragments.
- `CommandLine`: flags, rendering, and the quote-aware reader `ArgTokens`/`ParseArguments`.
- `ArgumentUtil`: the builders.
- `DotnetUtil`: the criteria, the scan, the parser and the update loop.

The process runner is not modelled. Every operation takes the tool's output as a parameter:
- the captured lines `processOutput`;
- for `UpdatePackages`, the project list, a function from a project file to its
  `list package --outdated` output, and a function from a (project, package) pair to the
  output of the corresponding `add package`.

## Model

| member | source | states |
|---|---|---|
| ArgumentUtil.RunRenders | src/ArgumentUtil.cs:5-25 | `Run` is the quoted path, then ` -f`, ` -c`, ` -v` in that order, each exactly when its value is non-null, then ` --no-build` exactly when `build` is present and false |
| ArgumentUtil.RunStartsWith | src/ArgumentUtil.cs:7 | every `Run` result begins with `"path"` |
| ArgumentUtil.RunReadsBack | src/ArgumentUtil.cs:5-25 | the model's reader recovers the path and exactly `RunFlags` from `Run`'s result |
| ArgumentUtil.RestoreRenders | src/ArgumentUtil.cs:27-35 | `Restore` is the quoted path, then ` -v {verbosity}` exactly when verbosity is non-null |
| ArgumentUtil.RestoreStartsWith | src/ArgumentUtil.cs:29 | every `Restore` result begins with `"path"` |
| ArgumentUtil.RestoreReadsBack | src/ArgumentUtil.cs:27-35 | the model's reader recovers the path and exactly `RestoreFlags` |
| ArgumentUtil.BuildRenders | src/ArgumentUtil.cs:37-54 | `Build` is the quoted path, then ` -c` when configuration is non-null, ` --no-restore` when restore is present and false, then ` -v` when verbosity is non-null |
| ArgumentUtil.BuildStartsWith | src/ArgumentUtil.cs:39 | every `Build` result begins with `"path"` |
| ArgumentUtil.BuildReadsBack | src/ArgumentUtil.cs:37-54 | the model's reader recovers the path and exactly `BuildFlags` |
| ArgumentUtil.TestRenders | src/ArgumentUtil.cs:56-70 | `Test` is the quoted path, then ` --no-restore` when restore is present and false, then ` -v` when verbosity is non-null |
| ArgumentUtil.TestStartsWith | src/ArgumentUtil.cs:58 | every `Test` result begins with `"path"` |
| ArgumentUtil.TestReadsBack | src/ArgumentUtil.cs:56-70 | the model's reader recovers the path and exactly `TestFlags` |
| ArgumentUtil.PackRenders | src/ArgumentUtil.cs:72-100 | `Pack` is the quoted path, then ` -p:PackageVersion={version}` always, then ` -c`, ` --no-build`, ` --no-restore` and ` --output "{output}"`, then ` -v`, each under its own condition |
| ArgumentUtil.PackStartsWith | src/ArgumentUtil.cs:74-76 | every `Pack` result begins with `"path" -p:PackageVersion={version}` |
| ArgumentUtil.PackReadsBack | src/ArgumentUtil.cs:72-100 | the model's reader recovers the path and exactly `PackFlags`; the output directory may hold spaces and comes back unquoted |
| ArgumentUtil.AddPackageRenders | src/ArgumentUtil.cs:102-116 | `AddPackage` is `"path" package "{packageId}"`, then ` --version` when version is non-null, ` --no-restore` when restore is present and false, then ` -v` when verbosity is neither null nor empty |
| ArgumentUtil.AddPackageStartsWith | src/ArgumentUtil.cs:104 | every `AddPackage` result begins with `"path" package "{packageId}"` |
| ArgumentUtil.AddPackageReadsBack | src/ArgumentUtil.cs:102-116 | the model's reader recovers the path and exactly `AddPackageFlags`; the package id may hold spaces |
| ArgumentUtil.RemovePackageRenders | src/ArgumentUtil.cs:118-129 | `RemovePackage` is `"path" package "{packageId}"`, then ` --no-restore` when restore is present and false, then ` -v` when verbosity is non-null |
| ArgumentUtil.RemovePackageStartsWith | src/ArgumentUtil.cs:120 | every `RemovePackage` result begins with `"path" package "{packageId}"` |
| ArgumentUtil.RemovePackageReadsBack | src/ArgumentUtil.cs:118-129 | the model's reader recovers the path and exactly `RemovePackageFlags`; the package id may hold spaces |
| ArgumentUtil.CleanRenders | src/ArgumentUtil.cs:131-142 | `Clean` is the quoted path, then ` --configuration` and ` -v`, each exactly when its value is neither null nor empty |
| ArgumentUtil.CleanStartsWith | src/ArgumentUtil.cs:133 | every `Clean` result begins with `"path"` |
| ArgumentUtil.CleanReadsBack | src/ArgumentUtil.cs:131-142 | the model's reader recovers the path and exactly `CleanFlags` |
| ArgumentUtil.ListPackagesRenders | src/ArgumentUtil.cs:144-155 | `ListPackages` is `"path" package`, then ` --outdated` exactly when `outdatedOnly`, then ` -v` when verbosity is neither null nor empty |
| ArgumentUtil.ListPackagesStartsWith | src/ArgumentUtil.cs:146 | every `ListPackages` result begins with `"path" package` |
| ArgumentUtil.ListPackagesReadsBack | src/ArgumentUtil.cs:144-155 | the model's reader recovers the path and exactly `ListPackagesFlags` |
| ArgumentUtil.EmptyVerbosity | src/ArgumentUtil.cs:15-16 | for `Run` with `build` unset, and for `Restore`, `Build`, `Test`, `Pack` and `RemovePackage`, an empty verbosity appends a trailing ` -v `; `Restore` then gives exactly `"path" -v ` |
| ArgumentUtil.EmptyValueSkipped | src/ArgumentUtil.cs:112-113 | `AddPackage`, `Clean` and `ListPackages` treat an empty verbosity (and `Clean` an empty configuration) as null |
| ArgumentUtil.UnsetIsTrue | src/ArgumentUtil.cs:18-22 | a null `build`/`restore` gives the same string as `true` in every builder that has the flag |
| CommandLine.RoundTrip | src/ArgumentUtil.cs:3-156 | for a path without `"` and well-formed flags, `ParseArguments(Quote(path) + Render(fs))` is exactly `(path, fs)` |
| CommandLine.ArgTokensRendered | src/ArgumentUtil.cs:3-156 | the reader splits a quoted path (which may hold spaces) and well-formed flags into the quoted path and the flags' tokens |
| CommandLine.ArgTokensJoin | src/ArgumentUtil.cs:3-156 | the reader inverts `Join` on whole tokens: quoted values without inner `"`, and bare tokens |
| CommandLine.ArgTokensFirst | src/ArgumentUtil.cs:7 | a whole token followed by nothing or a space is read off as the first token, quoted spaces included |
| CommandLine.ParseFlagsTokens | src/ArgumentUtil.cs:3-156 | the flag decoder inverts the tokens of every well-formed flag sequence |
| CommandLine.ParseFlagsOne | src/ArgumentUtil.cs:3-156 | each well-formed flag is decoded from its own tokens, whatever follows them |
| CommandLine.FragmentTokens | src/ArgumentUtil.cs:3-156 | a fragment as a builder appends it is its flag's tokens, each after one space |
| CommandLine.RenderAppend | src/ArgumentUtil.cs:3-156 | rendering distributes over concatenation of flag sequences |
| CommandLine.Extend | src/ArgumentUtil.cs:3-156 | appending one fragment to a rendered string renders one more flag |
| CommandLine.FlagTokensAreArgTokens | src/ArgumentUtil.cs:3-156 | every token of a well-formed flag is one the reader takes whole |
| Text.Trim | src/DotnetUtil.cs:206 | the result is a slice of the input with only white space around it, and it neither starts nor ends with white space |
| Text.TrimPadded | src/DotnetUtil.cs:206 | trimming a slice that neither starts nor ends with white space, with any white space before it and any after it, gives back that slice |
| Text.Split | src/DotnetUtil.cs:224 | every token produced is non-empty and space-free, and there are no more tokens than characters |
| Text.SplitSpaced | src/DotnetUtil.cs:224 | `Split` inverts `Spaced`: tokens written after gaps of any width come back as those tokens |
| Text.SplitTokenGap | src/DotnetUtil.cs:224 | a token, then a run of one or more spaces, then anything splits into that token followed by the tokens of the rest |
| Text.SplitToken | src/DotnetUtil.cs:224 | a token followed by nothing or a space is split off whole |
| Text.SplitLeadingSpaces | src/DotnetUtil.cs:224 | leading spaces do not change the tokens |
| Text.ContainsIgnoreCaseInside | src/DotnetUtil.cs:79 | a string contains, ignoring case, anything spliced into it |
| Text.MissingCharacter | src/DotnetUtil.cs:79 | a string lacking a non-letter character of the marker does not contain the marker, ignoring case |
| Text.EqualsIgnoreCaseChars | src/DotnetUtil.cs:246 | two strings are equal ignoring case if and only if they have the same length and agree at every position after folding |
| Text.FoldPairs | src/DotnetUtil.cs:246 | folding identifies two characters if and only if they are equal or an ASCII lower-case letter and its upper-case partner |
| DotnetUtil.ExecuteCommand | src/DotnetUtil.cs:274-289 | the result is true exactly when the first line accepted by either criterion is accepted by the success criterion; it equals `Classify` |
| DotnetUtil.ClassifyFirstMatch | src/DotnetUtil.cs:279-288 | `Classify` is true if and only if some line is the first decisive line and satisfies the success criterion |
| DotnetUtil.NoDecisiveLine | src/DotnetUtil.cs:288 | when no line satisfies either criterion, the verdict is false |
| DotnetUtil.SuccessTestedFirst | src/DotnetUtil.cs:281-285 | a first decisive line that satisfies both criteria gives true |
| DotnetUtil.WithoutFailureCriteria | src/DotnetUtil.cs:279-288 | with no failure criterion, the verdict is true if and only if some line satisfies the success criterion |
| DotnetUtil.FailureFirst | src/DotnetUtil.cs:279-288 | when no earlier line is decisive, a line that satisfies the failure criterion but not the success criterion makes the verdict false, whatever follows it |
| DotnetUtil.PredicateRace | src/DotnetUtil.cs:279-288 | an instance of `FailureFirst` with the test-failure markers as failure criterion: for `["building...", "build failed", "0 Error(s)"]` and the build success marker, the verdict is false |
| DotnetUtil.Run | src/DotnetUtil.cs:72 | `Run` succeeds if and only if the process printed at least one line |
| DotnetUtil.Restore | src/DotnetUtil.cs:79 | succeeds if and only if some line contains "Restore completed", ignoring case |
| DotnetUtil.Build | src/DotnetUtil.cs:86 | succeeds if and only if some line contains "0 Error(s)", ignoring case |
| DotnetUtil.Test | src/DotnetUtil.cs:91-102 | the earlier of a "test succeeded"/"Passed!"/"Test Run Successful." line and a "build failed"/"test failed" line decides, success winning on the same line |
| DotnetUtil.Pack | src/DotnetUtil.cs:109 | succeeds if and only if some line contains "0 Error(s)", ignoring case |
| DotnetUtil.RemovePackage | src/DotnetUtil.cs:115-116 | succeeds if and only if some line contains "Successfully removed" or "does not contain", ignoring case |
| DotnetUtil.AddPackage | src/DotnetUtil.cs:122-127 | succeeds if and only if some single line contains both "PackageReference for package" and "updated in file", ignoring case |
| DotnetUtil.Clean | src/DotnetUtil.cs:190 | succeeds if and only if some line contains "Cleaned", ignoring case |
| DotnetUtil.CommandComesFirst | src/DotnetUtil.cs:299 | the model's reader sees the subcommand as the first token of the process arguments, followed by the tokens of the built arguments |
| DotnetUtil.RestoreProcessArguments | src/DotnetUtil.cs:78 | the process arguments of `Restore` read as `restore`, the quoted path (spaces allowed), then the tokens of `RestoreFlags` |
| DotnetUtil.ListPackages | src/DotnetUtil.cs:193-272 | the loop returns exactly `Parse(lines).packages`, and no more records than lines |
| DotnetUtil.ReadLine | src/DotnetUtil.cs:204-268 | one loop iteration computes exactly one `Step` of the parser |
| DotnetUtil.ReadRow | src/DotnetUtil.cs:221-268 | the part of an iteration after the header tests computes the same `Step` |
| DotnetUtil.ReadOutdatedRow | src/DotnetUtil.cs:224-250 | the outdated-mode row decoding equals `OutdatedRecord` |
| DotnetUtil.ReadStandardRow | src/DotnetUtil.cs:255-267 | the normal-mode row decoding equals `StandardRecord` |
| DotnetUtil.OutdatedRecord | src/DotnetUtil.cs:231-250 | a row yields a record if and only if it has 4 or 5 tokens and its last two tokens differ ignoring case; the record is (`parts[1]`, the second-to-last token) |
| DotnetUtil.StandardRecordVersion | src/DotnetUtil.cs:260 | the version is empty if and only if the row has exactly 2 tokens (tokens are never empty) |
| DotnetUtil.HeaderLine | src/DotnetUtil.cs:206-219 | a header adds no record; after it the section flag is false if and only if it is a "Top-level Package" header |
| DotnetUtil.UnmarkedLine | src/DotnetUtil.cs:222-253 | a line without `>` adds no record, in either mode |
| DotnetUtil.OutdatedRow | src/DotnetUtil.cs:222-250 | in outdated mode a marked row adds its `OutdatedRecord` whatever the section |
| DotnetUtil.StandardRow | src/DotnetUtil.cs:253-267 | in normal mode a marked row adds its `StandardRecord` if and only if its section is the requested one |
| DotnetUtil.RecordBound | src/DotnetUtil.cs:197 | the parser never returns more records than lines |
| DotnetUtil.OutdatedModeIgnoresSections | src/DotnetUtil.cs:222-250 | in outdated mode the records are those of all marked rows, in line order |
| DotnetUtil.OutdatedModeIgnoresTransitive | src/DotnetUtil.cs:222 | in outdated mode the `transitive` argument does not change the result |
| DotnetUtil.SectionFlag | src/DotnetUtil.cs:209-218 | the section flag is true if and only if the last header seen was a "Transitive Package" header |
| DotnetUtil.StandardModeFiltersSections | src/DotnetUtil.cs:253-267 | in normal mode the records are those of the marked rows in the requested section, in line order |
| DotnetUtil.RecordsOfPrefix | src/DotnetUtil.cs:204-269 | the records of a prefix of the lines are a prefix of the records: order is kept and nothing is removed |
| DotnetUtil.RecordsComeFromRows | src/DotnetUtil.cs:224-265 | every record's name is the second token of some marked row |
| DotnetUtil.TopLevelHeaderView | src/DotnetUtil.cs:206-213 | an indented "Top-level Package" line is a top-level header |
| DotnetUtil.TransitiveHeaderView | src/DotnetUtil.cs:206-218 | an indented "Transitive Package" line is a transitive header |
| DotnetUtil.MarkedRowView | src/DotnetUtil.cs:206-224 | a `>` row whose tokens sit after gaps of any width is a marked non-header line whose tokens are the written tokens |
| DotnetUtil.TwoSectionViews | src/DotnetUtil.cs:204-269 | for a top-level section and a transitive section with one row each: outdated mode reports both rows, and normal mode reports the row of the requested section |
| DotnetUtil.ListingViews | src/DotnetUtil.cs:206-224 | the four lines of a two-section listing with padded columns are seen as two headers and two marked rows |
| DotnetUtil.OutdatedListing | src/DotnetUtil.cs:222-250 | in a listing with a 5-token top-level row and a 4-token transitive row (the `>` marker counted), columns padded with gaps of any width, outdated mode reports each package whose resolved and latest versions differ ignoring case, top-level first |
| DotnetUtil.StandardListing | src/DotnetUtil.cs:253-267 | in a listing with a 4-token top-level row and a 3-token transitive row, columns padded with gaps of any width, normal mode reports the transitive row when `transitive` is set and the top-level row otherwise, with the third token as version |
| DotnetUtil.UpdatePackages | src/DotnetUtil.cs:130-184 | the attempts are exactly `Attempts` (project order, then list order, continuing after an `add package` that reports `false`); the result is true if and only if there is a project and every attempt succeeded |
| DotnetUtil.UpdateProject | src/DotnetUtil.cs:162-175 | one attempt per outdated package in list order; true if and only if all of them succeeded |
| DotnetUtil.AttemptsOfAppend | src/DotnetUtil.cs:147-176 | the attempts for two lists of projects are the attempts for the first followed by those for the second |
| DotnetUtil.AttemptsCover | src/DotnetUtil.cs:147-176 | (project, package) is attempted if and only if the project is listed and the package is outdated in it |
| DotnetUtil.NothingOutdated | src/DotnetUtil.cs:156-160 | when no project has an outdated package, nothing is attempted |
| DotnetUtil.AllUpdatedAppend | src/DotnetUtil.cs:170-174 | all attempts succeeded if and only if all succeeded in each part |

## Left out

- Process spawning, the environment-variable dictionary and `ExecuteCommandWithOutput` are left out (src/DotnetUtil.cs:20-38, 291-301). The captured lines are a parameter. Only the space-joined command line is modelled (`ProcessArguments`).
- `ExecuteCommand`'s `command`, `projectPath` and `argumentBuilder` parameters are left out. They only reach the process, and the verdict depends on the captured lines alone.
- `ListPackagesJson` is left out because it depends on a file-existence check and on JSON parsing by a library.
- `ProjectHelper.GetProjectFiles` is a filesystem scan. Its result is the `projectFiles` parameter of `UpdatePackages`.
- The `Restore` call at the top of `UpdatePackages` is left out (src/DotnetUtil.cs:132), because its result is ignored.
- Logging and the `async`/`ValueTask` plumbing are left out, because they do not affect any result.
- Runner errors and cancellation are left out. `ExecuteCommand` awaits the process runner with the cancellation token (src/DotnetUtil.cs:276, 297-298). A cancelled run, or any other error the runner raises, comes back as an exception and not as `false`. That error propagates out of `ExecuteCommand`, and inside `UpdatePackages` (src/DotnetUtil.cs:146-175) it stops all remaining listings and updates. The model assumes every call returns captured lines. Its `UpdatePackages` therefore continues only past failures reported as `false`. The runner, `ProcessUtil`, is not part of this model.
- Case-insensitive comparison is an ASCII fold: `a`–`z` are folded to `A`–`Z`. Full Unicode `OrdinalIgnoreCase` folding is not modelled.
- `Trim` uses the white-space set of `Char.IsWhiteSpace`, written out as ranges. It is not derived from Unicode data.
- The interface `IDotnetUtil`, the dependency-injection registrar and the test files are not part of this model.
- The call sites in `DotnetUtil.cs` pass builder arities that do not match `ArgumentUtil.cs`. The builders are modelled as written in `ArgumentUtil.cs`, and `ExecuteCommand`'s argument builder is not modelled, so the two are not reconciled.
- The extra parameters of `DotnetUtil.ListPackages` are left out: `includePrerelease`, `vulnerable`, `deprecated`, `log` and `verbosity`. They only reach the argument builder.
- C# default parameter values (`"Release"`, `"normal"`, `true`) are left out. The model takes every parameter explicitly.
- The wrappers `DotnetUtil.Run`, `Restore` and the other commands take the captured lines directly. They do not call a builder.
- `UpdatePackages` takes the tool's output as fixed functions of the project file, and of the project file and package id. The model therefore does not capture a later listing changing because of an earlier `add package` in the same run.
- `UpdatePackages` passes `version: null` and `restore: true` to each `AddPackage` call. These arguments are not part of an `Attempt`, which records only the project file and the package id.
- `ListPackages` tests for headers on the trimmed line, but tests for `>` and splits the raw line. The model does the same as the code.
- `ListPackages` in normal mode reports a row's third token as its version: the Requested column in a top-level row, and the Resolved column in a transitive row. The model does the same as the code.
- `ParseArguments` is this model's reader, not the argument parser of the dotnet host. It treats `"` as special only at the start of a token, and it keeps a quoted token's quotes for the flag decoder to remove. Backslash escapes are not modelled.
- The `*ReadsBack` lemmas hold only for values that reader takes whole. The quoted path, package id and output directory may hold spaces but no `"`. An unquoted value must be non-empty (where the builder does not already skip empty values), contain no space and not begin with `"`. A package version must contain no space. Outside these values the builders emit strings that split differently, so the round trip does not hold there.
- `CommandComesFirst` is tied to a builder only for `Restore` (`RestoreProcessArguments`). The other wrappers pass their builder's string in the same way.
- The worked listings write each row's columns after gaps of at least one space, the row's indentation included. The header lines carry arbitrary column text that ends in a visible character.
- `ReadLine` and `ReadRow` are the body of the `ListPackages` loop, split out as methods. `UpdateProject` is likewise the inner loop of `UpdatePackages`.
